/** The ABO/Rh red-cell compatibility checker: the eight blood types, the two
    hand-written lookup tables ("can receive from" and "can donate to"), the
    descriptive metadata per type and the query step behind the
    "Analyze Compatibility" button. */
module BloodGroups {
  import opened Wrappers
  import opened Sequences

  /** The eight blood types offered by the checker's drop-down. */
  datatype BloodType = APos | ANeg | BPos | BNeg | ABPos | ABNeg | OPos | ONeg

  datatype Abo = A | B | AB | O
  datatype Rh = Positive | Negative

  function AboOf(t: BloodType): Abo {
    match t
    case APos | ANeg => A
    case BPos | BNeg => B
    case ABPos | ABNeg => AB
    case OPos | ONeg => O
  }

  function RhOf(t: BloodType): Rh {
    match t
    case APos | BPos | ABPos | OPos => Positive
    case ANeg | BNeg | ABNeg | ONeg => Negative
  }

  /** The drop-down's list, in the component's order. */
  const AllTypes: seq<BloodType> := [APos, ANeg, BPos, BNeg, ABPos, ABNeg, OPos, ONeg]

  /** The string key the component uses for a blood type. */
  function Code(t: BloodType): string {
    match t
    case APos => "A+"
    case ANeg => "A-"
    case BPos => "B+"
    case BNeg => "B-"
    case ABPos => "AB+"
    case ABNeg => "AB-"
    case OPos => "O+"
    case ONeg => "O-"
  }

  /** Reads a key back; any string other than the eight codes is unknown. */
  function Parse(code: string): (r: Option<BloodType>)
    ensures r.Some? ==> Code(r.value) == code
    ensures r.None? ==> forall t :: Code(t) != code
  {
    if code == "A+" then Some(APos)
    else if code == "A-" then Some(ANeg)
    else if code == "B+" then Some(BPos)
    else if code == "B-" then Some(BNeg)
    else if code == "AB+" then Some(ABPos)
    else if code == "AB-" then Some(ABNeg)
    else if code == "O+" then Some(OPos)
    else if code == "O-" then Some(ONeg)
    else None
  }

  lemma ParseCode(t: BloodType)
    ensures Parse(Code(t)) == Some(t)
  {
    match t
    case APos => assert Code(t) == "A+";
    case ANeg => assert Code(t) == "A-";
    case BPos => assert Code(t) == "B+";
    case BNeg => assert Code(t) == "B-";
    case ABPos => assert Code(t) == "AB+";
    case ABNeg => assert Code(t) == "AB-";
    case OPos => assert Code(t) == "O+";
    case ONeg => assert Code(t) == "O-";
  }

  // ---------------------------------------------------------------------
  // The two lookup tables, in the component's order
  // ---------------------------------------------------------------------

  /** `compatibilityMatrix`: donor types whose blood the recipient can receive. */
  function ReceiveTable(recipient: BloodType): seq<BloodType> {
    match recipient
    case APos => [APos, ANeg, OPos, ONeg]
    case ANeg => [ANeg, ONeg]
    case BPos => [BPos, BNeg, OPos, ONeg]
    case BNeg => [BNeg, ONeg]
    case ABPos => [APos, ANeg, BPos, BNeg, ABPos, ABNeg, OPos, ONeg]
    case ABNeg => [ANeg, BNeg, ABNeg, ONeg]
    case OPos => [OPos, ONeg]
    case ONeg => [ONeg]
  }

  /** `donorCompatibility`: recipient types the donor can give blood to. */
  function DonateTable(donor: BloodType): seq<BloodType> {
    match donor
    case APos => [APos, ABPos]
    case ANeg => [APos, ANeg, ABPos, ABNeg]
    case BPos => [BPos, ABPos]
    case BNeg => [BPos, BNeg, ABPos, ABNeg]
    case ABPos => [ABPos]
    case ABNeg => [ABPos, ABNeg]
    case OPos => [APos, BPos, ABPos, OPos]
    case ONeg => [APos, ANeg, BPos, BNeg, ABPos, ABNeg, OPos, ONeg]
  }

  /** Set view of the "can receive from" table. */
  function CanReceiveFrom(recipient: BloodType): set<BloodType> {
    set d | d in ReceiveTable(recipient)
  }

  /** Set view of the "can donate to" table. */
  function CanDonateTo(donor: BloodType): set<BloodType> {
    set r | r in DonateTable(donor)
  }

  // ---------------------------------------------------------------------
  // The ABO/Rh rule the tables follow
  // ---------------------------------------------------------------------

  /** ABO, the standard rule the tables follow: the donor is O, or of the
      recipient's group, or the recipient is AB. */
  predicate AboCompatible(donor: BloodType, recipient: BloodType) {
    AboOf(donor) == O || AboOf(donor) == AboOf(recipient) || AboOf(recipient) == AB
  }

  /** Rh: a positive recipient accepts either factor, a negative one only negative. */
  predicate RhCompatible(donor: BloodType, recipient: BloodType) {
    RhOf(donor) == Negative || RhOf(recipient) == Positive
  }

  predicate Compatible(donor: BloodType, recipient: BloodType) {
    AboCompatible(donor, recipient) && RhCompatible(donor, recipient)
  }

  /** Each row of the "can receive from" table lists exactly the donors the
      rule admits, each once. */
  lemma ReceiveTableMatchesRule(recipient: BloodType)
    ensures forall d :: d in CanReceiveFrom(recipient) <==> Compatible(d, recipient)
    ensures NoDuplicates(ReceiveTable(recipient))
  {
  }

  /** Each row of the "can donate to" table lists exactly the recipients the
      rule admits, each once. */
  lemma DonateTableMatchesRule(donor: BloodType)
    ensures forall r :: r in CanDonateTo(donor) <==> Compatible(donor, r)
    ensures NoDuplicates(DonateTable(donor))
  {
  }

  /** The two tables describe the same relation from its two ends. */
  lemma TablesAreInverse(x: BloodType, y: BloodType)
    ensures y in CanReceiveFrom(x) <==> x in CanDonateTo(y)
  {
    ReceiveTableMatchesRule(x);
    DonateTableMatchesRule(y);
  }

  lemma Reflexive(t: BloodType)
    ensures t in CanReceiveFrom(t) && t in CanDonateTo(t)
  {
    ReceiveTableMatchesRule(t);
    DonateTableMatchesRule(t);
  }

  /** O- can be given to everyone but can only receive O-. */
  lemma UniversalDonor()
    ensures forall x :: ONeg in CanReceiveFrom(x)
    ensures forall x :: x in CanDonateTo(ONeg)
    ensures CanReceiveFrom(ONeg) == {ONeg}
  {
    forall x ensures ONeg in CanReceiveFrom(x) { ReceiveTableMatchesRule(x); }
    DonateTableMatchesRule(ONeg);
    ReceiveTableMatchesRule(ONeg);
  }

  /** AB+ can receive from everyone but can only give to AB+. */
  lemma UniversalRecipient()
    ensures forall x :: x in CanReceiveFrom(ABPos)
    ensures CanDonateTo(ABPos) == {ABPos}
    ensures forall x :: ABPos in CanDonateTo(x)
  {
    ReceiveTableMatchesRule(ABPos);
    DonateTableMatchesRule(ABPos);
    forall x ensures ABPos in CanDonateTo(x) { DonateTableMatchesRule(x); }
  }

  /** An Rh-negative recipient only receives Rh-negative blood; an
      Rh-positive one receives both factors of a compatible ABO group. */
  lemma RhRule(recipient: BloodType, donor: BloodType)
    ensures RhOf(recipient) == Negative && donor in CanReceiveFrom(recipient) ==> RhOf(donor) == Negative
    ensures RhOf(recipient) == Positive && AboCompatible(donor, recipient) ==> donor in CanReceiveFrom(recipient)
  {
    ReceiveTableMatchesRule(recipient);
  }

  // ---------------------------------------------------------------------
  // Descriptive metadata (`getBloodTypeInfo`)
  // ---------------------------------------------------------------------

  /** Population frequency; the component shows it as a percentage string. */
  datatype Frequency = Percent(p: nat) | UnknownFrequency

  /** Rarity label, from most to least common. */
  datatype Category = MostCommon | Common | LessCommon | Rare | VeryRare | UnknownCategory

  /** A record of the info table; `special` is `false` in the source when absent. */
  datatype TypeInfo = TypeInfo(frequency: Frequency, category: Category, special: Option<string>)

  const UnknownInfo: TypeInfo := TypeInfo(UnknownFrequency, UnknownCategory, None)

  function KnownInfo(t: BloodType): TypeInfo {
    match t
    case APos => TypeInfo(Percent(34), Common, None)
    case ANeg => TypeInfo(Percent(6), LessCommon, None)
    case BPos => TypeInfo(Percent(9), LessCommon, None)
    case BNeg => TypeInfo(Percent(2), Rare, None)
    case ABPos => TypeInfo(Percent(3), Rare, Some("Universal Plasma Donor"))
    case ABNeg => TypeInfo(Percent(1), VeryRare, None)
    case OPos => TypeInfo(Percent(38), MostCommon, None)
    case ONeg => TypeInfo(Percent(7), LessCommon, Some("Universal Blood Donor"))
  }

  /** `getBloodTypeInfo`: look the key up, falling back to the "Unknown" record. */
  function BloodTypeInfo(code: string): (r: TypeInfo)
    ensures Parse(code).None? ==> r == UnknownInfo && r.special.None?
    ensures Parse(code).Some? ==> r.frequency.Percent? && r.category != UnknownCategory
    ensures Parse(code).Some? ==> r == KnownInfo(Parse(code).value)
    ensures r.special.Some? <==> code == "O-" || code == "AB+"
  {
    match Parse(code)
    case Some(t) => KnownInfo(t)
    case None => UnknownInfo
  }

  /** Rank of a category: smaller is more common. */
  function Rank(c: Category): nat {
    match c
    case MostCommon => 0
    case Common => 1
    case LessCommon => 2
    case Rare => 3
    case VeryRare => 4
    case UnknownCategory => 5
  }

  /** The eight frequencies account for the whole population, and a more
      frequent type never carries a rarer label. */
  lemma InfoTableConsistent()
    ensures (var f := (t: BloodType) => KnownInfo(t).frequency.p;
             f(APos) + f(ANeg) + f(BPos) + f(BNeg) + f(ABPos) + f(ABNeg) + f(OPos) + f(ONeg) == 100)
    ensures forall t1, t2 :: KnownInfo(t1).frequency.p < KnownInfo(t2).frequency.p ==>
              Rank(KnownInfo(t2).category) <= Rank(KnownInfo(t1).category)
  {
  }

  // ---------------------------------------------------------------------
  // The query step (`checkCompatibility`)
  // ---------------------------------------------------------------------

  datatype Report = Report(
    recipientType: string,
    compatibleDonors: seq<BloodType>,
    canDonateTo: seq<BloodType>,
    recipientInfo: TypeInfo,
    allBloodTypes: seq<BloodType>)

  /** Number announced in the "Found N compatible donor types" message. */
  function DonorCount(r: Report): nat {
    |r.compatibleDonors|
  }

  /** `checkCompatibility` for the selected key; `None` when nothing is
      selected (the component only shows an error message then). */
  function CheckCompatibility(selected: string): (r: Option<Report>)
    ensures selected == [] <==> r.None?
    ensures r.Some? ==> r.value.recipientType == selected && r.value.allBloodTypes == AllTypes
    ensures r.Some? ==> r.value.recipientInfo == BloodTypeInfo(selected)
    ensures r.Some? && Parse(selected).Some? ==>
              var t := Parse(selected).value;
              (forall d :: d in r.value.compatibleDonors <==> Compatible(d, t)) &&
              (forall x :: x in r.value.canDonateTo <==> Compatible(t, x)) &&
              DonorCount(r.value) == |CanReceiveFrom(t)| &&
              |r.value.canDonateTo| == |CanDonateTo(t)|
    ensures r.Some? && Parse(selected).None? ==> r.value.compatibleDonors == [] && r.value.canDonateTo == []
  {
    if selected == [] then None
    else
      var donors := match Parse(selected) case Some(t) => ReceiveTable(t) case None => [];
      var targets := match Parse(selected) case Some(t) => DonateTable(t) case None => [];
      assert Parse(selected).Some? ==> DonorCount(Report(selected, donors, targets, BloodTypeInfo(selected), AllTypes)) == |CanReceiveFrom(Parse(selected).value)| by {
        if Parse(selected).Some? {
          var t := Parse(selected).value;
          ReceiveTableMatchesRule(t);
          DistinctCard(ReceiveTable(t));
        }
      }
      assert Parse(selected).Some? ==> |targets| == |CanDonateTo(Parse(selected).value)| by {
        if Parse(selected).Some? {
          var t := Parse(selected).value;
          DonateTableMatchesRule(t);
          DistinctCard(DonateTable(t));
        }
      }
      forall d ensures Parse(selected).Some? ==> (d in donors <==> Compatible(d, Parse(selected).value)) {
        if Parse(selected).Some? { ReceiveTableMatchesRule(Parse(selected).value); }
      }
      forall x ensures Parse(selected).Some? ==> (x in targets <==> Compatible(Parse(selected).value, x)) {
        if Parse(selected).Some? { DonateTableMatchesRule(Parse(selected).value); }
      }
      Some(Report(selected, donors, targets, BloodTypeInfo(selected), AllTypes))
  }
}
