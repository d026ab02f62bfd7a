/** Virtual subscriber numbers for call-out groups, handed out from a pool by circular probing. */
module VirtualIssi {
  import opened Cardinality

  const BASE := 970000
  const SPAN := 10000
  const PREFIX := "callout-group-"

  type Issi = n: nat | n < 0x1_0000_0000
  type Gssi = n: nat | n < 0x1_0000_0000

  datatype Endpoint = Endpoint(name: string, created: int, updated: int)

  function Digits(n: nat): (s: string)
    ensures |s| > 0
  {
    var d := [('0' as int + n % 10) as char];
    if n < 10 then d else Digits(n / 10) + d
  }

  function GroupName(gssi: Gssi): string {
    PREFIX + Digits(gssi)
  }

  predicate IsCallout(name: string) {
    PREFIX <= name
  }

  type Assignment = map<Gssi, Issi>

  // ---- what the probe may take ----

  /** Assigned to some other group. */
  predicate Taken(groups: Assignment, gssi: Gssi, issi: Issi) {
    exists g :: g in groups && g != gssi && groups[g] == issi && issi != 0
  }

  /** Used as an endpoint of somebody else's. */
  predicate Foreign(endpoints: map<Issi, Endpoint>, issi: Issi) {
    issi in endpoints && !IsCallout(endpoints[issi].name)
  }

  predicate Available(groups: Assignment, endpoints: map<Issi, Endpoint>, gssi: Gssi, issi: Issi) {
    !Taken(groups, gssi, issi) && !Foreign(endpoints, issi)
  }

  /** The i-th number the probe for a group looks at. */
  function Candidate(gssi: Gssi, i: nat): (c: Issi)
    requires i < SPAN
    ensures BASE <= c < BASE + SPAN
  {
    BASE + (gssi % SPAN + i) % SPAN
  }

  function Fallback(gssi: Gssi): (c: Issi)
    ensures BASE + SPAN <= c < BASE + 2 * SPAN
  {
    BASE + SPAN + gssi % SPAN
  }

  /** The number at position i, when everything before it is unavailable; the fallback after a full round. */
  ghost predicate IsChoice(groups: Assignment, endpoints: map<Issi, Endpoint>, gssi: Gssi, issi: Issi) {
    || (exists i: nat :: i < SPAN && ChosenAt(groups, endpoints, gssi, issi, i))
    || (issi == Fallback(gssi) && forall i: nat :: i < SPAN ==> !Available(groups, endpoints, gssi, Candidate(gssi, i)))
  }

  ghost predicate ChosenAt(groups: Assignment, endpoints: map<Issi, Endpoint>, gssi: Gssi, issi: Issi, i: nat)
    requires i < SPAN
  {
    && issi == Candidate(gssi, i) && Available(groups, endpoints, gssi, issi)
    && forall k: nat :: k < i ==> !Available(groups, endpoints, gssi, Candidate(gssi, k))
  }

  /** The probe looks at every number of the pool exactly once. */
  lemma ProbeCoversPool(gssi: Gssi, issi: Issi)
    requires BASE <= issi < BASE + SPAN
    ensures exists i: nat :: i < SPAN && Candidate(gssi, i) == issi
  {
    var start := gssi % SPAN;
    var offset := issi - BASE;
    var i := if offset >= start then offset - start else offset - start + SPAN;
    assert Candidate(gssi, i) == issi;
  }

  lemma ProbeNeverRepeats(gssi: Gssi, i: nat, j: nat)
    requires i < j < SPAN
    ensures Candidate(gssi, i) != Candidate(gssi, j)
  {
  }

  /** The probe goes through the pool in order and starts again at its beginning. */
  lemma ProbeOrder(gssi: Gssi, i: nat)
    requires i + 1 < SPAN
    ensures Candidate(gssi, i + 1) == if Candidate(gssi, i) == 979999 then 970000 else Candidate(gssi, i) + 1
  {
  }

  /** In an empty registry a group gets the number that its own last four digits name. */
  lemma FirstChoice(gssi: Gssi, issi: Issi)
    requires IsChoice(map[], map[], gssi, issi)
    ensures issi == 970000 + gssi % 10000 && Fallback(gssi) == 980000 + gssi % 10000
  {
    assert Available(map[], map[], gssi, Candidate(gssi, 0));
  }

  /** An endpoint is foreign exactly when its name does not begin with the fourteen characters that those of groups begin
      with; so no group's own endpoint is. */
  lemma ForeignIff(endpoints: map<Issi, Endpoint>, issi: Issi)
    requires issi in endpoints
    ensures Foreign(endpoints, issi)
            <==> |endpoints[issi].name| < 14 || endpoints[issi].name[..14] != "callout-group-"
  {
    var name := endpoints[issi].name;
    if |name| >= 14 && name[..14] == "callout-group-" {
      assert PREFIX <= name;
    }
  }

  function Value(s: string): int {
    if s == [] then 0 else 10 * Value(s[..|s| - 1]) + (s[|s| - 1] as int - '0' as int)
  }

  predicate Decimal(s: string) {
    forall i :: 0 <= i < |s| ==> '0' <= s[i] <= '9'
  }

  /** A group's endpoint is named by its number in decimal, without leading zeros. */
  lemma {:induction false} DigitsAre(n: nat)
    ensures Value(Digits(n)) == n && Decimal(Digits(n)) && (n > 0 ==> Digits(n)[0] != '0')
  {
    if n >= 10 {
      DigitsAre(n / 10);
      var s := Digits(n);
      assert s[..|s| - 1] == Digits(n / 10);
    } else {
      var s := Digits(n);
      assert s[..0] == [];
    }
  }

  lemma NamesAre(gssi: Gssi)
    ensures GroupName(gssi)[..14] == "callout-group-" && Value(GroupName(gssi)[14..]) == gssi
    ensures Decimal(GroupName(gssi)[14..])
  {
    DigitsAre(gssi);
    assert GroupName(gssi)[14..] == Digits(gssi);
  }

  // ---- distinct groups, distinct numbers ----

  ghost predicate Injective(groups: Assignment) {
    forall a, b :: a in groups && b in groups && a != b ==> groups[a] != groups[b]
  }

  ghost predicate InPools(groups: Assignment) {
    forall g :: g in groups ==> BASE <= groups[g] < BASE + 2 * SPAN
  }

  ghost predicate PoolHasRoom(groups: Assignment, endpoints: map<Issi, Endpoint>, gssi: Gssi) {
    exists issi: Issi :: BASE <= issi < BASE + SPAN && Available(groups, endpoints, gssi, issi)
  }

  /** While the pool has room the choice comes from it, and the assignment stays injective. */
  lemma RoomKeepsInjective(groups: Assignment, endpoints: map<Issi, Endpoint>, gssi: Gssi, issi: Issi)
    requires Injective(groups) && InPools(groups) && gssi !in groups && IsChoice(groups, endpoints, gssi, issi)
    requires PoolHasRoom(groups, endpoints, gssi)
    ensures BASE <= issi < BASE + SPAN && !Foreign(endpoints, issi)
    ensures Injective(groups[gssi := issi]) && InPools(groups[gssi := issi])
  {
    ChoiceComesFromPool(groups, endpoints, gssi, issi);
    ExtendInjective(groups, gssi, issi);
  }

  lemma ChoiceComesFromPool(groups: Assignment, endpoints: map<Issi, Endpoint>, gssi: Gssi, issi: Issi)
    requires IsChoice(groups, endpoints, gssi, issi)
    ensures PoolHasRoom(groups, endpoints, gssi) ==>
              BASE <= issi < BASE + SPAN && Available(groups, endpoints, gssi, issi)
    ensures !PoolHasRoom(groups, endpoints, gssi) ==> issi == Fallback(gssi)
  {
    hide Available, Candidate;
    if PoolHasRoom(groups, endpoints, gssi) {
      var free: Issi :| BASE <= free < BASE + SPAN && Available(groups, endpoints, gssi, free);
      ProbeCoversPool(gssi, free);
    }
  }

  /** The assignment stays injective exactly when no other group has the number. */
  lemma ExtendInjective(groups: Assignment, gssi: Gssi, issi: Issi)
    requires Injective(groups) && issi != 0 && gssi !in groups
    ensures Injective(groups[gssi := issi]) <==> !Taken(groups, gssi, issi)
  {
    var after := groups[gssi := issi];
    if Taken(groups, gssi, issi) {
      var g :| g in groups && g != gssi && groups[g] == issi;
      assert g in after && gssi in after && after[g] == after[gssi];
    }
  }

  /** The exact condition: a choice keeps the assignment injective if and only if the pool has room or the
      fallback number is not yet another group's. */
  lemma InjectiveIff(groups: Assignment, endpoints: map<Issi, Endpoint>, gssi: Gssi, issi: Issi)
    requires Injective(groups) && gssi !in groups && IsChoice(groups, endpoints, gssi, issi)
    ensures Injective(groups[gssi := issi])
            <==> PoolHasRoom(groups, endpoints, gssi) || !Taken(groups, gssi, Fallback(gssi))
  {
    ChoiceComesFromPool(groups, endpoints, gssi, issi);
    ExtendInjective(groups, gssi, issi);
  }

  /** The choice takes over a foreign endpoint exactly when the pool is full and the fallback number is one. */
  lemma TakesForeignIff(groups: Assignment, endpoints: map<Issi, Endpoint>, gssi: Gssi, issi: Issi)
    requires IsChoice(groups, endpoints, gssi, issi)
    ensures Foreign(endpoints, issi)
            <==> !PoolHasRoom(groups, endpoints, gssi) && Foreign(endpoints, Fallback(gssi))
  {
    ChoiceComesFromPool(groups, endpoints, gssi, issi);
  }

  /** With every number of both pools a foreign endpoint, the first group takes one over. */
  lemma FullPoolTakesForeign(endpoints: map<Issi, Endpoint>, gssi: Gssi)
    requires forall issi: Issi :: BASE <= issi < BASE + 2 * SPAN ==> Foreign(endpoints, issi)
    ensures IsChoice(map[], endpoints, gssi, Fallback(gssi)) && Foreign(endpoints, Fallback(gssi))
  {
  }

  /** Such a state: an unnamed endpoint on every number of both pools. */
  function Crowded(): map<Issi, Endpoint> {
    map issi | issi in Pool(2 * SPAN) :: Endpoint("", 0, 0)
  }

  lemma CrowdedTakesForeign(gssi: Gssi)
    ensures IsChoice(map[], Crowded(), gssi, Fallback(gssi)) && Foreign(Crowded(), Fallback(gssi))
  {
    FullPoolTakesForeign(Crowded(), gssi);
  }

  /** A pool whose every number is a foreign endpoint gives two groups that agree modulo 10000 the same number. */
  lemma FullPoolCollides(endpoints: map<Issi, Endpoint>, gssi: Gssi)
    requires gssi + SPAN < 0x1_0000_0000
    requires forall issi: Issi :: BASE <= issi < BASE + SPAN ==> Foreign(endpoints, issi)
    ensures var groups: Assignment := map[gssi := Fallback(gssi)];
            && IsChoice(map[], endpoints, gssi, Fallback(gssi))
            && IsChoice(groups, endpoints, gssi + SPAN, Fallback(gssi))
            && !Injective(groups[gssi + SPAN := Fallback(gssi)])
  {
    var groups: Assignment := map[gssi := Fallback(gssi)];
    var after := groups[gssi + SPAN := Fallback(gssi)];
    assert Fallback(gssi + SPAN) == Fallback(gssi);
    assert gssi in after && gssi + SPAN in after;
  }

  // ---- when is there room? ----

  function Pool(n: nat): (p: set<Issi>)
    requires n <= 2 * SPAN
    ensures |p| == n && forall x :: x in p <==> BASE <= x < BASE + n
  {
    if n == 0 then {} else Pool(n - 1) + {BASE + n - 1}
  }

  /** Fewer groups and foreign endpoints together than numbers in the pool leave room. */
  lemma CountingRoom(groups: Assignment, endpoints: map<Issi, Endpoint>, gssi: Gssi, foreign: set<Issi>)
    requires forall issi :: issi in foreign <==> BASE <= issi < BASE + SPAN && Foreign(endpoints, issi)
    requires |groups.Keys| + |foreign| < SPAN
    ensures PoolHasRoom(groups, endpoints, gssi)
  {
    var used := set g | g in groups :: groups[g];
    ImageSize(groups, groups.Keys);
    assert used == set g | g in groups.Keys :: groups[g];
    var blocked := used + foreign;
    UnionSize(used, foreign);
    if forall issi :: issi in Pool(SPAN) ==> issi in blocked {
      SubsetSize(Pool(SPAN), blocked);
      assert false;
    }
    var issi :| issi in Pool(SPAN) && issi !in blocked;
    assert Available(groups, endpoints, gssi, issi);
  }

  lemma {:induction false} ImageSize(groups: Assignment, keys: set<Gssi>)
    requires keys <= groups.Keys
    ensures |set g | g in keys :: groups[g]| <= |keys|
    decreases |keys|
  {
    if keys != {} {
      var k :| k in keys;
      ImageSize(groups, keys - {k});
      assert (set g | g in keys :: groups[g]) == (set g | g in keys - {k} :: groups[g]) + {groups[k]};
    }
  }

  // ---- whole runs ----

  datatype Registry = Registry(groups: Assignment, endpoints: map<Issi, Endpoint>)

  datatype Event = Ensure(gssi: Gssi) | Name(named: Issi, name: string) | Delete(deleted: Issi)

  /** What one call may do to the registry: a group that has a number keeps it, another gets the probe's choice;
      naming and deleting touch one endpoint and no group. */
  ghost predicate CanStep(before: Registry, e: Event, after: Registry) {
    match e
    case Ensure(gssi) =>
      && gssi in after.groups
      && var issi := after.groups[gssi];
         && (if gssi in before.groups && before.groups[gssi] != 0 then issi == before.groups[gssi]
             else IsChoice(before.groups, before.endpoints, gssi, issi))
         && after.groups == before.groups[gssi := issi]
         && issi in after.endpoints && after.endpoints[issi].name == GroupName(gssi)
         && after.endpoints - {issi} == before.endpoints - {issi}
    case Name(issi, name) =>
      && after.groups == before.groups
      && issi in after.endpoints && after.endpoints[issi].name == name
      && after.endpoints - {issi} == before.endpoints - {issi}
    case Delete(issi) => after.groups == before.groups && after.endpoints == before.endpoints - {issi}
  }

  /** A new group only comes while the pool has room for it. */
  ghost predicate Roomy(r: Registry, e: Event) {
    e.Ensure? && e.gssi !in r.groups ==> PoolHasRoom(r.groups, r.endpoints, e.gssi)
  }

  ghost predicate Run(rs: seq<Registry>, es: seq<Event>) {
    && |rs| == |es| + 1 && rs[0] == Registry(map[], map[])
    && forall i :: 0 <= i < |es| ==> CanStep(rs[i], es[i], rs[i + 1]) && Roomy(rs[i], es[i])
  }

  ghost predicate Sound(r: Registry) {
    Injective(r.groups) && InPools(r.groups)
  }

  /** One event keeps the numbers distinct and every number it finds. */
  lemma StepKeepsNumbers(before: Registry, e: Event, after: Registry)
    requires Sound(before) && CanStep(before, e, after) && Roomy(before, e)
    ensures Sound(after)
    ensures forall g :: g in before.groups ==> g in after.groups && after.groups[g] == before.groups[g]
  {
    if e.Ensure? {
      var issi := after.groups[e.gssi];
      if e.gssi in before.groups {
        assert after.groups == before.groups;
      } else {
        RoomKeepsInjective(before.groups, before.endpoints, e.gssi, issi);
      }
    }
  }

  /** From an empty service, through any calls, namings and deletions with room in the pool: at every moment the
      groups have distinct numbers, and a number once given is never changed. */
  lemma {:induction false} RunKeepsNumbers(rs: seq<Registry>, es: seq<Event>, i: nat, j: nat)
    requires Run(rs, es) && i <= j < |rs|
    ensures Sound(rs[j])
    ensures forall g :: g in rs[i].groups ==> g in rs[j].groups && rs[j].groups[g] == rs[i].groups[g]
    decreases j
  {
    if j > 0 {
      RunKeepsNumbers(rs, es, if i < j then i else j - 1, j - 1);
      StepKeepsNumbers(rs[j - 1], es[j - 1], rs[j]);
    }
  }

  // ---- the service ----

  class Service {
    var groupCalloutVirtual: map<Gssi, Issi>
    var virtualSDSEndpoints: map<Issi, Endpoint>

    constructor ()
      ensures groupCalloutVirtual == map[] && virtualSDSEndpoints == map[]
    {
      groupCalloutVirtual, virtualSDSEndpoints := map[], map[];
    }

    ghost function Contents(): Registry
      reads this
    {
      Registry(groupCalloutVirtual, virtualSDSEndpoints)
    }

    /** `upsertVirtualSDSEndpoint`, with the name already normalised. */
    method UpsertEndpoint(issi: Issi, name: string, now: int) returns (created: bool)
      modifies this`virtualSDSEndpoints
      ensures CanStep(old(Contents()), Name(issi, name), Contents())
      ensures created <==> issi !in old(virtualSDSEndpoints)
    {
      created := Touch(issi, name, now);
    }

    /** Names an endpoint, creating it if need be. */
    method Touch(issi: Issi, name: string, now: int) returns (created: bool)
      modifies this`virtualSDSEndpoints
      ensures created <==> issi !in old(virtualSDSEndpoints)
      ensures virtualSDSEndpoints == old(virtualSDSEndpoints)[issi := Endpoint(name, if created then now
                                                              else old(virtualSDSEndpoints)[issi].created, now)]
    {
      created := issi !in virtualSDSEndpoints;
      if created {
        virtualSDSEndpoints := virtualSDSEndpoints[issi := Endpoint("", now, now)];
      }
      var ep := virtualSDSEndpoints[issi];
      virtualSDSEndpoints := virtualSDSEndpoints[issi := ep.(name := name, updated := now)];
    }

    /** The numbers that other groups hold. */
    method OccupiedByOthers(gssi: Gssi) returns (occupied: set<Issi>)
      ensures forall issi: Issi :: issi in occupied <==> Taken(groupCalloutVirtual, gssi, issi)
    {
      occupied := {};
      var todo := groupCalloutVirtual.Keys;
      while todo != {}
        invariant todo <= groupCalloutVirtual.Keys
        invariant forall g :: g in groupCalloutVirtual && g !in todo && g != gssi && groupCalloutVirtual[g] != 0 ==>
                    groupCalloutVirtual[g] in occupied
        invariant forall issi: Issi :: issi in occupied ==> Taken(groupCalloutVirtual, gssi, issi)
        decreases |todo|
      {
        var group :| group in todo;
        todo := todo - {group};
        var issi := groupCalloutVirtual[group];
        if group != gssi && issi != 0 {
          occupied := occupied + {issi};
        }
      }
    }

    /** `ensureGroupCalloutVirtualEndpoint`: a group keeps the number it has; otherwise the first available one of
        the circular probe, or the fallback. */
    method EnsureGroupCallout(gssi: Gssi, now: int) returns (issi: Issi, created: bool)
      modifies this
      ensures var had := gssi in old(groupCalloutVirtual) && old(groupCalloutVirtual)[gssi] != 0;
              && (had ==> issi == old(groupCalloutVirtual)[gssi])
              && (!had ==> IsChoice(old(groupCalloutVirtual), old(virtualSDSEndpoints), gssi, issi))
      ensures CanStep(old(Contents()), Ensure(gssi), Contents())
      ensures groupCalloutVirtual == old(groupCalloutVirtual)[gssi := issi]
      ensures created <==> issi !in old(virtualSDSEndpoints)
                           && !(gssi in old(groupCalloutVirtual) && old(groupCalloutVirtual)[gssi] != 0)
      ensures virtualSDSEndpoints
              == old(virtualSDSEndpoints)[issi := Endpoint(GroupName(gssi),
                                                           if issi in old(virtualSDSEndpoints)
                                                           then old(virtualSDSEndpoints)[issi].created else now,
                                                           now)]
    {
      hide Taken, Candidate, Fallback, IsCallout, GroupName;
      var name := GroupName(gssi);
      if gssi in groupCalloutVirtual && groupCalloutVirtual[gssi] != 0 {
        issi := groupCalloutVirtual[gssi];
        var _ := Touch(issi, name, now);
        return issi, false;
      }
      var occupied := OccupiedByOthers(gssi);
      for i: int := 0 to SPAN
        invariant groupCalloutVirtual == old(groupCalloutVirtual) && virtualSDSEndpoints == old(virtualSDSEndpoints)
        invariant forall k: nat :: k < i ==> !Available(groupCalloutVirtual, virtualSDSEndpoints, gssi, Candidate(gssi, k))
      {
        issi := Candidate(gssi, i);
        if issi !in occupied && !Foreign(virtualSDSEndpoints, issi) {
          assert ChosenAt(groupCalloutVirtual, virtualSDSEndpoints, gssi, issi, i);
          created := Touch(issi, name, now);
          groupCalloutVirtual := groupCalloutVirtual[gssi := issi];
          return;
        }
      }
      issi := Fallback(gssi);
      created := Touch(issi, name, now);
      groupCalloutVirtual := groupCalloutVirtual[gssi := issi];
    }

    /** An endpoint deleted by hand leaves the groups alone. */
    method DeleteEndpoint(issi: Issi) returns (found: bool)
      modifies this`virtualSDSEndpoints
      ensures found <==> issi in old(virtualSDSEndpoints)
      ensures CanStep(old(Contents()), Delete(issi), Contents())
    {
      if issi !in virtualSDSEndpoints {
        assert virtualSDSEndpoints == virtualSDSEndpoints - {issi};
        return false;
      }
      virtualSDSEndpoints := virtualSDSEndpoints - {issi};
      return true;
    }
  }
}
