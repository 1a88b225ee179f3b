/** The user profile: read-only statistics, an edit dialog whose Save and
    Cancel behave alike, and the boolean settings. */
module Profile {

  datatype Settings = Settings(
    allowAnyone: bool,
    allowSwapOnly: bool,
    verifiedOnly: bool,
    emailNotifications: bool,
    pushNotifications: bool,
    reminderEmails: bool)

  /** Everything on except "verified users only". */
  const InitialSettings := Settings(true, true, false, true, true, true)

  datatype SettingKey = AllowAnyone | AllowSwapOnly | VerifiedOnly | EmailNotifications | PushNotifications | ReminderEmails

  function Get(s: Settings, k: SettingKey): bool
  {
    match k
    case AllowAnyone => s.allowAnyone
    case AllowSwapOnly => s.allowSwapOnly
    case VerifiedOnly => s.verifiedOnly
    case EmailNotifications => s.emailNotifications
    case PushNotifications => s.pushNotifications
    case ReminderEmails => s.reminderEmails
  }

  /** Initially every setting is on except "verified users only". */
  lemma InitialSettingsValues(k: SettingKey)
    ensures Get(InitialSettings, k) <==> k != VerifiedOnly
  {
  }

  /** Settings that agree on every key are the same settings. */
  lemma SettingsExtensional(a: Settings, b: Settings)
    requires forall k :: Get(a, k) == Get(b, k)
    ensures a == b
  {
    assert Get(a, AllowAnyone) == Get(b, AllowAnyone) && Get(a, AllowSwapOnly) == Get(b, AllowSwapOnly);
    assert Get(a, VerifiedOnly) == Get(b, VerifiedOnly) && Get(a, EmailNotifications) == Get(b, EmailNotifications);
    assert Get(a, PushNotifications) == Get(b, PushNotifications) && Get(a, ReminderEmails) == Get(b, ReminderEmails);
  }

  /** `handleToggleSetting(key)`: that key flips, the other five stay. */
  function Toggle(s: Settings, k: SettingKey): (r: Settings)
    ensures Get(r, k) == !Get(s, k)
    ensures forall j :: j != k ==> Get(r, j) == Get(s, j)
  {
    match k
    case AllowAnyone => s.(allowAnyone := !s.allowAnyone)
    case AllowSwapOnly => s.(allowSwapOnly := !s.allowSwapOnly)
    case VerifiedOnly => s.(verifiedOnly := !s.verifiedOnly)
    case EmailNotifications => s.(emailNotifications := !s.emailNotifications)
    case PushNotifications => s.(pushNotifications := !s.pushNotifications)
    case ReminderEmails => s.(reminderEmails := !s.reminderEmails)
  }

  /** Toggling a key twice restores the settings. */
  lemma ToggleTwice(s: Settings, k: SettingKey)
    ensures Toggle(Toggle(s, k), k) == s
  {
    SettingsExtensional(Toggle(Toggle(s, k), k), s);
  }

  /** Toggles on different keys do not interfere. */
  lemma TogglesCommute(s: Settings, a: SettingKey, b: SettingKey)
    ensures Toggle(Toggle(s, a), b) == Toggle(Toggle(s, b), a)
  {
    SettingsExtensional(Toggle(Toggle(s, a), b), Toggle(Toggle(s, b), a));
  }

  /** The statistics shown in the header (the float rating is not modelled). */
  datatype UserStats = UserStats(
    name: string,
    location: string,
    joinDate: string,
    reviews: nat,
    booksLent: nat,
    booksShared: nat,
    activeSwaps: nat)

  const InitialStats := UserStats("Sarah Martinez", "Downtown, San Francisco, CA", "March 2023", 42, 15, 28, 3)

  datatype ProfileState = ProfileState(stats: UserStats, settings: Settings, editOpen: bool)

  const InitialProfile := ProfileState(InitialStats, InitialSettings, false)

  /** The events the profile page reacts to. */
  datatype ProfileEvent = OpenEdit | SaveProfile | CancelEdit | SaveSettings | ToggleSetting(key: SettingKey)

  /** One event. Saving the profile only closes the dialog (and shows a
      toast), exactly like Cancel; saving the settings changes nothing. */
  function Apply(p: ProfileState, e: ProfileEvent): (r: ProfileState)
    ensures e == SaveProfile || e == CancelEdit ==> r == p.(editOpen := false)
    ensures e == SaveSettings ==> r == p
    ensures e == OpenEdit ==> r == p.(editOpen := true)
    ensures e.ToggleSetting? ==> r == p.(settings := Toggle(p.settings, e.key))
  {
    match e
    case OpenEdit => p.(editOpen := true)
    case SaveProfile => p.(editOpen := false)
    case CancelEdit => p.(editOpen := false)
    case SaveSettings => p
    case ToggleSetting(k) => p.(settings := Toggle(p.settings, k))
  }

  /** The state after a sequence of events. */
  function RunEvents(p: ProfileState, es: seq<ProfileEvent>): ProfileState
    decreases |es|
  {
    if |es| == 0 then p else RunEvents(Apply(p, es[0]), es[1..])
  }

  /** Nothing on the page writes the statistics: whatever the user does,
      they stay as they were. */
  lemma {:induction false} StatsNeverChange(p: ProfileState, es: seq<ProfileEvent>)
    ensures RunEvents(p, es).stats == p.stats
    decreases |es|
  {
    if |es| > 0 {
      StatsNeverChange(Apply(p, es[0]), es[1..]);
    }
  }

  /** Only toggles move the settings: a run without toggles keeps them. */
  lemma {:induction false} SettingsOnlyChangeByToggle(p: ProfileState, es: seq<ProfileEvent>)
    requires forall i :: 0 <= i < |es| ==> !es[i].ToggleSetting?
    ensures RunEvents(p, es).settings == p.settings
    decreases |es|
  {
    if |es| > 0 {
      SettingsOnlyChangeByToggle(Apply(p, es[0]), es[1..]);
    }
  }

  /** The page always shows the mock statistics it starts with. */
  lemma ShowsMockStats(es: seq<ProfileEvent>)
    ensures RunEvents(InitialProfile, es).stats == InitialStats
  {
    StatsNeverChange(InitialProfile, es);
  }

  /** How many events of a run toggle the given switch. */
  function TogglesOf(es: seq<ProfileEvent>, k: SettingKey): nat
    decreases |es|
  {
    if |es| == 0 then 0
    else (if es[0] == ToggleSetting(k) then 1 else 0) + TogglesOf(es[1..], k)
  }

  /** After any run a switch shows its starting value, flipped once for
      each toggle of that switch: on iff it started on and was toggled an
      even number of times, or started off and was toggled an odd number. */
  lemma {:induction false} SettingIsParityOfToggles(p: ProfileState, es: seq<ProfileEvent>, k: SettingKey)
    ensures Get(RunEvents(p, es).settings, k) == (Get(p.settings, k) != (TogglesOf(es, k) % 2 == 1))
    decreases |es|
  {
    if |es| > 0 {
      SettingIsParityOfToggles(Apply(p, es[0]), es[1..], k);
    }
  }

  /** From the first render, "verified users only" is on iff it was
      toggled an odd number of times. */
  lemma VerifiedOnlyAfterRun(es: seq<ProfileEvent>)
    ensures Get(RunEvents(InitialProfile, es).settings, VerifiedOnly) <==> TogglesOf(es, VerifiedOnly) % 2 == 1
  {
    SettingIsParityOfToggles(InitialProfile, es, VerifiedOnly);
    InitialSettingsValues(VerifiedOnly);
  }
}
