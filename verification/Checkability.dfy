/** Per-claim checkability and its fold to one class per declaration. */
module Checkability {
  import opened ClaimSlots

  datatype Check = Checkable | InsufficientEntityResolution | InsufficientTimeScope | NonCheckable

  datatype ResolverStatus = Resolved | Ambiguous | Unresolved | NotApplicable

  const TIME_REQUIRED: set<ClaimType> := {VoteCast, CommitteeAttendance}

  /** Some required slot was looked up and not resolved to one entity. */
  predicate SomeUnresolved(t: ClaimType, statuses: map<SlotName, ResolverStatus>)
    requires Known(t)
  {
    exists slot | slot in Required(t) :: slot in statuses && statuses[slot] in {Ambiguous, Unresolved}
  }

  function Classify(t: ClaimType, slots: Slots, statuses: map<SlotName, ResolverStatus>, timeUnknown: bool): Check {
    if !Known(t) then NonCheckable
    else if !SlotsValid(t, slots) then InsufficientEntityResolution
    else if SomeUnresolved(t, statuses) then InsufficientEntityResolution
    else if t in TIME_REQUIRED && timeUnknown then InsufficientTimeScope
    else Checkable
  }

  datatype DeclarationCheck =
    | CheckableFormalAction | PartiallyCheckable | DeclarationTimeScope | DeclarationEntityResolution | NotCheckable

  function Count(checks: seq<Check>, c: Check): (n: nat)
    ensures n <= |checks|
    ensures n > 0 <==> c in checks
    ensures n == |checks| <==> forall x | x in checks :: x == c
  {
    if checks == [] then 0
    else
      assert checks == [checks[0]] + checks[1..];
      assert checks[0] in checks && forall x | x in checks[1..] :: x in checks;
      Count(checks[1..], c) + if checks[0] == c then 1 else 0
  }

  function ClassifyDeclaration(checks: seq<Check>): DeclarationCheck {
    if checks == [] then NotCheckable
    else if Count(checks, Checkable) > 0 then CheckableFormalAction
    else if Count(checks, InsufficientTimeScope) == |checks| then DeclarationTimeScope
    else if Count(checks, InsufficientEntityResolution) == |checks| then DeclarationEntityResolution
    else if Count(checks, NonCheckable) == |checks| then NotCheckable
    else if Count(checks, InsufficientTimeScope) > 0 || Count(checks, InsufficientEntityResolution) > 0 then
      PartiallyCheckable
    else NotCheckable
  }

  /**
   * The decision table in terms of which values occur at all. The branch after the four homogeneous
   * cases always finds a time or entity failure, so the last `not_checkable` is dead.
   */
  lemma DeclarationTable(checks: seq<Check>)
    ensures ClassifyDeclaration(checks) == CheckableFormalAction <==> Checkable in checks
    ensures ClassifyDeclaration(checks) == NotCheckable <==> forall c | c in checks :: c == NonCheckable
    ensures ClassifyDeclaration(checks) == DeclarationTimeScope <==>
              checks != [] && forall c | c in checks :: c == InsufficientTimeScope
    ensures ClassifyDeclaration(checks) == DeclarationEntityResolution <==>
              checks != [] && forall c | c in checks :: c == InsufficientEntityResolution
    ensures ClassifyDeclaration(checks) == PartiallyCheckable <==>
              && Checkable !in checks
              && exists c, d :: c in checks && d in checks && c != d
  {
    if checks != [] {
      assert checks[0] in checks;
      if Checkable !in checks && !(forall c | c in checks :: c == checks[0]) {
        var d :| d in checks && d != checks[0];
        assert checks[0] == NonCheckable ==> d in {InsufficientTimeScope, InsufficientEntityResolution};
      }
    }
  }

  /** The four answers, each in terms of the inputs. */
  lemma CheckMeaning(t: ClaimType, slots: Slots, statuses: map<SlotName, ResolverStatus>, timeUnknown: bool)
    ensures var check := Classify(t, slots, statuses, timeUnknown);
            var unresolved := Known(t) && exists slot ::
              slot in Required(t) && slot in statuses && (statuses[slot] == Ambiguous || statuses[slot] == Unresolved);
            && (check == NonCheckable <==> t.Other?)
            && (check == InsufficientEntityResolution <==> !t.Other? && (!SlotsValid(t, slots) || unresolved))
            && (check == InsufficientTimeScope <==>
                  SlotsValid(t, slots) && !unresolved && timeUnknown && (t == VoteCast || t == CommitteeAttendance))
            && (check == Checkable <==>
                  SlotsValid(t, slots) && !unresolved && !(timeUnknown && (t == VoteCast || t == CommitteeAttendance)))
  {
  }
}
