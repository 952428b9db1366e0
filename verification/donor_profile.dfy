/** The donor profile page: the 30-day cooldown after a donation, the
    required-field check before saving, the state change when a donation is
    recorded, and single-field edits. Time is a parameter: instants are
    integer milliseconds since the epoch. */
module DonorProfiles {
  import opened Wrappers

  /** The page's copy of a donor row; the row id and map coordinates are not modelled. */
  datatype DonorProfile = DonorProfile(
    userId: string,
    name: string,
    bloodGroup: string,
    phone: string,
    address: string,
    city: string,
    state: string,
    availabilityStatus: bool,
    lastDonation: Option<int>)

  const MillisPerDay: nat := 1000 * 60 * 60 * 24
  const CooldownDays: nat := 30

  /** Whole days elapsed, rounded down (`Math.floor`); negative when `last`
      lies in the future. */
  function DaysSince(last: int, now: int): (k: int)
    ensures k * MillisPerDay <= now - last < (k + 1) * MillisPerDay
  {
    (now - last) / MillisPerDay
  }

  /** `getDaysUntilAvailable`: days left of the cooldown, never negative. */
  function DaysUntilAvailable(lastDonation: Option<int>, now: int): (d: int)
    ensures d >= 0
    ensures lastDonation.None? ==> d == 0
    ensures lastDonation.Some? && now >= lastDonation.value ==> d <= CooldownDays
    ensures lastDonation.Some? ==>
              (d == 0 <==> now - lastDonation.value >= CooldownDays * MillisPerDay)
    ensures lastDonation.Some? && d > 0 ==>
              d + DaysSince(lastDonation.value, now) == CooldownDays
  {
    match lastDonation
    case None => 0
    case Some(last) =>
      var daysSince := DaysSince(last, now);
      if CooldownDays - daysSince > 0 then CooldownDays - daysSince else 0
  }

  /** The wait only shrinks as time passes. */
  lemma DaysUntilAvailableMonotone(lastDonation: Option<int>, now1: int, now2: int)
    requires now1 <= now2
    ensures DaysUntilAvailable(lastDonation, now2) <= DaysUntilAvailable(lastDonation, now1)
  {
    if lastDonation.Some? {
      var last := lastDonation.value;
      assert DaysSince(last, now1) <= DaysSince(last, now2);
    }
  }

  /** Right after a donation the wait is the full 30 days; it ends exactly
      30 days later, one millisecond earlier it is still one day. */
  lemma CooldownBoundaries(t: int)
    ensures DaysUntilAvailable(Some(t), t) == CooldownDays
    ensures DaysUntilAvailable(Some(t), t + CooldownDays * MillisPerDay - 1) == 1
    ensures DaysUntilAvailable(Some(t), t + CooldownDays * MillisPerDay) == 0
  {
  }

  // ---------------------------------------------------------------------
  // Saving
  // ---------------------------------------------------------------------

  /** The row written on save: the availability flag but not the donation date. */
  datatype ProfileRow = ProfileRow(
    userId: string, name: string, bloodGroup: string, phone: string,
    address: string, city: string, state: string, availabilityStatus: bool)

  datatype SaveDecision =
    | NotSignedIn
    | MissingRequired  // "Name, blood group, and phone number are required"
    | Update(row: ProfileRow)
    | Insert(row: ProfileRow)

  /** Required fields for saving. */
  predicate HasRequiredFields(p: DonorProfile) {
    p.name != [] && p.bloodGroup != [] && p.phone != []
  }

  /** `handleSave` up to the request: who is signed in, the required-field
      check, and whether the row is updated or inserted. */
  function SaveDecisionFor(user: Option<string>, profileExists: bool, p: DonorProfile): (r: SaveDecision)
    ensures r == NotSignedIn <==> user.None?
    ensures r == MissingRequired <==> user.Some? && !HasRequiredFields(p)
    ensures r.Update? <==> user.Some? && HasRequiredFields(p) && profileExists
    ensures r.Insert? <==> user.Some? && HasRequiredFields(p) && !profileExists
    ensures (r.Update? || r.Insert?) ==>
              r.row == ProfileRow(user.value, p.name, p.bloodGroup, p.phone, p.address, p.city, p.state, p.availabilityStatus)
  {
    match user
    case None => NotSignedIn
    case Some(uid) =>
      if !HasRequiredFields(p) then MissingRequired
      else
        var row := ProfileRow(uid, p.name, p.bloodGroup, p.phone, p.address, p.city, p.state, p.availabilityStatus);
        if profileExists then Update(row) else Insert(row)
  }

  /** Address, city and state are optional: they never decide whether a save goes ahead. */
  lemma OptionalFieldsDoNotBlockSave(user: Option<string>, profileExists: bool, p: DonorProfile, address: string, city: string, state: string)
    ensures SaveDecisionFor(user, profileExists, p.(address := address, city := city, state := state)) == MissingRequired
            <==> SaveDecisionFor(user, profileExists, p) == MissingRequired
  {
  }

  /** After a successful insert the page knows the row exists. */
  function ProfileExistsAfterSave(profileExists: bool, d: SaveDecision, writeSucceeded: bool): (e: bool)
    ensures e <==> profileExists || (d.Insert? && writeSucceeded)
    ensures !writeSucceeded ==> e == profileExists
  {
    if d.Insert? && writeSucceeded then true else profileExists
  }

  /** A save that gets past the checks and is written leaves the page knowing
      the row exists; a refused save, or a failed write, changes nothing. */
  lemma SaveEstablishesProfile(user: Option<string>, profileExists: bool, p: DonorProfile, writeSucceeded: bool)
    ensures var d := SaveDecisionFor(user, profileExists, p);
            && ((d.Update? || d.Insert?) && writeSucceeded ==> ProfileExistsAfterSave(profileExists, d, writeSucceeded))
            && (user.None? || !HasRequiredFields(p) || !writeSucceeded ==>
                  ProfileExistsAfterSave(profileExists, d, writeSucceeded) == profileExists)
            && (user.Some? && HasRequiredFields(p) && writeSucceeded ==> ProfileExistsAfterSave(profileExists, d, writeSucceeded))
  {
  }

  // ---------------------------------------------------------------------
  // Recording a donation and editing fields
  // ---------------------------------------------------------------------

  /** `recordDonation`: with a signed-in user, an existing row and a
      successful update, the donor becomes unavailable as of `now`;
      otherwise nothing changes. */
  function RecordDonation(user: Option<string>, profileExists: bool, p: DonorProfile, now: int, writeSucceeded: bool): (p': DonorProfile)
    ensures !(user.Some? && profileExists && writeSucceeded) ==> p' == p
    ensures user.Some? && profileExists && writeSucceeded ==>
              !p'.availabilityStatus && p'.lastDonation == Some(now)
    ensures p'.(availabilityStatus := p.availabilityStatus, lastDonation := p.lastDonation) == p
  {
    if user.None? || !profileExists || !writeSucceeded then p
    else p.(lastDonation := Some(now), availabilityStatus := false)
  }

  /** The text fields `handleInputChange` is called with. */
  datatype TextField = Name | BloodGroup | Phone | Address | City | State

  datatype Edit = SetText(field: TextField, value: string) | SetAvailability(available: bool)

  function TextOf(p: DonorProfile, f: TextField): string {
    match f
    case Name => p.name
    case BloodGroup => p.bloodGroup
    case Phone => p.phone
    case Address => p.address
    case City => p.city
    case State => p.state
  }

  /** `handleInputChange`: the named field takes the new value, every other field keeps its own. */
  function ApplyEdit(p: DonorProfile, e: Edit): (p': DonorProfile)
    ensures e.SetText? ==> TextOf(p', e.field) == e.value && p'.availabilityStatus == p.availabilityStatus
    ensures e.SetText? ==> forall f :: f != e.field ==> TextOf(p', f) == TextOf(p, f)
    ensures e.SetAvailability? ==> p'.availabilityStatus == e.available && forall f :: TextOf(p', f) == TextOf(p, f)
    ensures p'.userId == p.userId && p'.lastDonation == p.lastDonation
  {
    match e
    case SetAvailability(b) => p.(availabilityStatus := b)
    case SetText(f, v) =>
      match f
      case Name => p.(name := v)
      case BloodGroup => p.(bloodGroup := v)
      case Phone => p.(phone := v)
      case Address => p.(address := v)
      case City => p.(city := v)
      case State => p.(state := v)
  }

  /** The availability switch is disabled while the cooldown runs. */
  predicate ToggleLocked(p: DonorProfile, now: int) {
    DaysUntilAvailable(p.lastDonation, now) > 0
  }

  /** Flipping the availability switch: ignored while locked. */
  function ToggleAvailability(p: DonorProfile, checked: bool, now: int): (p': DonorProfile)
    ensures ToggleLocked(p, now) ==> p' == p
    ensures !ToggleLocked(p, now) ==> p' == p.(availabilityStatus := checked)
  {
    if ToggleLocked(p, now) then p else ApplyEdit(p, SetAvailability(checked))
  }

  /** The "Record Donation" button is offered only for a saved, available donor. */
  predicate RecordDonationOffered(profileExists: bool, p: DonorProfile) {
    profileExists && p.availabilityStatus
  }

  /** The button is offered exactly to a saved, available donor, and pressing
      it (with a successful write) takes it away again. */
  lemma RecordButtonOffered(uid: string, profileExists: bool, p: DonorProfile, now: int)
    ensures RecordDonationOffered(profileExists, p) ==>
              RecordDonation(Some(uid), profileExists, p, now, true) != p &&
              !RecordDonationOffered(profileExists, RecordDonation(Some(uid), profileExists, p, now, true))
  {
  }

  /** A recorded donation locks the switch for the whole cooldown and takes
      the button away; once the 30 days are over the donor can switch back on. */
  lemma DonationStartsCooldown(uid: string, p: DonorProfile, now: int, later: int)
    requires now <= later
    ensures var p' := RecordDonation(Some(uid), true, p, now, true);
            && !RecordDonationOffered(true, p')
            && (later < now + CooldownDays * MillisPerDay ==> ToggleAvailability(p', true, later) == p')
            && (later >= now + CooldownDays * MillisPerDay ==> ToggleAvailability(p', true, later).availabilityStatus)
  {
  }
}
