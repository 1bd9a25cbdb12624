/** The slots each claim type requires, allows and forbids. */
module ClaimSlots {
  /** `Other` stands for any string that is not one of the eight supported families. */
  datatype ClaimType =
    | VoteCast | BillSponsorship | OfficeHeld | CommitteeMembership | CommitteeAttendance
    | StatementAboutFormalAction | ElectionResult | GovernmentDecision
    | Other(name: string)

  datatype SlotName =
    | SpeakerPersonId | TargetPersonId | BillId | CommitteeId | OfficeId | VoteValue
    | PartyId | ExpectedSeats | ExpectPassedThreshold | GovernmentDecisionId
    | GovernmentNumber

  /** `Data` stands for any value that is neither null nor a string. */
  datatype SlotValue = Null | Text(s: string) | Data(n: int)

  type Slots = map<SlotName, SlotValue>

  /** `government_number` travels with the slots but is not one of them. */
  const ALL_SLOTS: set<SlotName> :=
    {SpeakerPersonId, TargetPersonId, BillId, CommitteeId, OfficeId, VoteValue,
     PartyId, ExpectedSeats, ExpectPassedThreshold, GovernmentDecisionId}

  predicate Known(t: ClaimType) {
    !t.Other?
  }

  function Required(t: ClaimType): set<SlotName>
    requires Known(t)
  {
    match t
    case VoteCast => {SpeakerPersonId, BillId, VoteValue}
    case BillSponsorship => {SpeakerPersonId, BillId}
    case OfficeHeld => {SpeakerPersonId, OfficeId}
    case CommitteeMembership => {SpeakerPersonId, CommitteeId}
    case CommitteeAttendance => {SpeakerPersonId, CommitteeId}
    case StatementAboutFormalAction => {SpeakerPersonId}
    case ElectionResult => {PartyId}
    case GovernmentDecision => {GovernmentDecisionId}
  }

  function Optional(t: ClaimType): set<SlotName>
    requires Known(t)
  {
    match t
    case StatementAboutFormalAction => {TargetPersonId, BillId, CommitteeId, OfficeId, VoteValue}
    case ElectionResult => {SpeakerPersonId, TargetPersonId, ExpectedSeats, ExpectPassedThreshold}
    case GovernmentDecision => {SpeakerPersonId, TargetPersonId, OfficeId}
    case _ => {TargetPersonId}
  }

  function Forbidden(t: ClaimType): set<SlotName>
    requires Known(t)
  {
    ALL_SLOTS - Required(t) - Optional(t)
  }

  /** Absent, null and the empty string all count as empty. */
  predicate Empty(slots: Slots, name: SlotName) {
    name !in slots || slots[name] in {Null, Text("")}
  }

  datatype Violation = UnknownType | RequiredEmpty(slot: SlotName) | ForbiddenSet(slot: SlotName)

  predicate SlotsValid(t: ClaimType, slots: Slots) {
    && Known(t)
    && (forall name | name in Required(t) :: !Empty(slots, name))
    && (forall name | name in Forbidden(t) :: Empty(slots, name))
  }

  /** Every formal slot is required, optional or forbidden, and no slot is two of these. */
  lemma TemplatesPartitionSlots(t: ClaimType)
    requires Known(t)
    ensures Required(t) + Optional(t) + Forbidden(t) == ALL_SLOTS
    ensures Required(t) !! Optional(t) !! Forbidden(t)
  {
    assert GovernmentNumber !in Required(t) + Optional(t);
  }

  /** Reports every slot of `pool` whose emptiness is `wrong`, once each, in no particular order. */
  method Report(pool: set<SlotName>, slots: Slots, wrong: bool) returns (names: seq<SlotName>)
    ensures forall name :: name in names <==> name in pool && Empty(slots, name) == wrong
    ensures forall i, j :: 0 <= i < j < |names| ==> names[i] != names[j]
  {
    names := [];
    var todo := pool;
    while todo != {}
      invariant todo <= pool
      invariant forall name :: name in names <==> name in pool - todo && Empty(slots, name) == wrong
      invariant forall i, j :: 0 <= i < j < |names| ==> names[i] != names[j]
      decreases |todo|
    {
      var name :| name in todo;
      if Empty(slots, name) == wrong {
        names := names + [name];
      }
      todo := todo - {name};
    }
  }

  /** Each broken rule is reported exactly once, and nothing else is. */
  method ValidateSlots(t: ClaimType, slots: Slots) returns (violations: seq<Violation>)
    ensures violations == [] <==> SlotsValid(t, slots)
    ensures UnknownType in violations <==> !Known(t)
    ensures forall name :: RequiredEmpty(name) in violations <==>
              Known(t) && name in Required(t) && Empty(slots, name)
    ensures forall name :: ForbiddenSet(name) in violations <==>
              Known(t) && name in Forbidden(t) && !Empty(slots, name)
    ensures forall i, j :: 0 <= i < j < |violations| ==> violations[i] != violations[j]
  {
    if !Known(t) {
      return [UnknownType];
    }
    var missing := Report(Required(t), slots, true);
    var intruding := Report(Forbidden(t), slots, false);
    violations := Listed(missing, intruding);
    ListedMembers(missing, intruding);
    if missing == [] && intruding == [] {
      assert forall name | name in Required(t) :: name !in missing;
      assert forall name | name in Forbidden(t) :: name !in intruding;
    } else if missing != [] {
      assert missing[0] in missing;
    } else {
      assert intruding[0] in intruding;
    }
  }

  function Listed(missing: seq<SlotName>, intruding: seq<SlotName>): seq<Violation> {
    seq(|missing| + |intruding|, i requires 0 <= i < |missing| + |intruding| =>
      if i < |missing| then RequiredEmpty(missing[i]) else ForbiddenSet(intruding[i - |missing|]))
  }

  lemma ListedMembers(missing: seq<SlotName>, intruding: seq<SlotName>)
    ensures UnknownType !in Listed(missing, intruding)
    ensures forall name :: RequiredEmpty(name) in Listed(missing, intruding) <==> name in missing
    ensures forall name :: ForbiddenSet(name) in Listed(missing, intruding) <==> name in intruding
  {
    var all := Listed(missing, intruding);
    forall name
      ensures RequiredEmpty(name) in all <==> name in missing
      ensures ForbiddenSet(name) in all <==> name in intruding
    {
      if name in missing {
        var i :| 0 <= i < |missing| && missing[i] == name;
        assert all[i] == RequiredEmpty(name);
      }
      if name in intruding {
        var i :| 0 <= i < |intruding| && intruding[i] == name;
        assert all[|missing| + i] == ForbiddenSet(name);
      }
    }
  }

  /** A slot is filled by anything but null and the empty string. */
  predicate Filled(slots: Slots, name: SlotName) {
    name in slots && slots[name] != Null && slots[name] != Text("")
  }

  /** What a claim of each type must and must not say. */
  lemma SlotTable(t: ClaimType, slots: Slots)
    ensures SlotsValid(t, slots) <==>
              match t
              case VoteCast =>
                Filled(slots, SpeakerPersonId) && Filled(slots, BillId) && Filled(slots, VoteValue)
                && forall name | Filled(slots, name) :: name in {SpeakerPersonId, BillId, VoteValue, TargetPersonId, GovernmentNumber}
              case BillSponsorship =>
                Filled(slots, SpeakerPersonId) && Filled(slots, BillId)
                && forall name | Filled(slots, name) :: name in {SpeakerPersonId, BillId, TargetPersonId, GovernmentNumber}
              case OfficeHeld =>
                Filled(slots, SpeakerPersonId) && Filled(slots, OfficeId)
                && forall name | Filled(slots, name) :: name in {SpeakerPersonId, OfficeId, TargetPersonId, GovernmentNumber}
              case CommitteeMembership | CommitteeAttendance =>
                Filled(slots, SpeakerPersonId) && Filled(slots, CommitteeId)
                && forall name | Filled(slots, name) :: name in {SpeakerPersonId, CommitteeId, TargetPersonId, GovernmentNumber}
              case StatementAboutFormalAction =>
                Filled(slots, SpeakerPersonId)
                && !Filled(slots, PartyId) && !Filled(slots, ExpectedSeats) && !Filled(slots, ExpectPassedThreshold)
                && !Filled(slots, GovernmentDecisionId)
              case ElectionResult =>
                Filled(slots, PartyId)
                && !Filled(slots, BillId) && !Filled(slots, CommitteeId) && !Filled(slots, OfficeId)
                && !Filled(slots, VoteValue) && !Filled(slots, GovernmentDecisionId)
              case GovernmentDecision =>
                Filled(slots, GovernmentDecisionId)
                && forall name | Filled(slots, name) ::
                     name in {GovernmentDecisionId, SpeakerPersonId, TargetPersonId, OfficeId, GovernmentNumber}
              case Other(_) => false
  {
    if Known(t) {
      ValidMeansFilled(t, slots);
    }
  }

  lemma ValidMeansFilled(t: ClaimType, slots: Slots)
    requires Known(t)
    ensures SlotsValid(t, slots) <==>
              && (forall name | name in Required(t) :: Filled(slots, name))
              && (forall name | Filled(slots, name) :: name in Required(t) || name in Optional(t) || name == GovernmentNumber)
  {
    forall name
      ensures Filled(slots, name) <==> !Empty(slots, name)
      ensures name in Forbidden(t) <==> name !in Required(t) && name !in Optional(t) && name != GovernmentNumber
    {
      EverySlot(name);
      TemplatesPartitionSlots(t);
    }
  }

  lemma EverySlot(name: SlotName)
    ensures name in ALL_SLOTS || name == GovernmentNumber
  {
  }
}
