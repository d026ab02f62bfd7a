/** What a server knows of the subscribers behind one peer: who they are, and, kept the other way round, which
    groups they listen to. */
module PeerTables {
  type Issi = n: nat | n < 0x1_0000_0000
  type Gssi = n: nat | n < 0x1_0000_0000

  /** For each group its members; a group without members is not listed. */
  type Affiliations = map<Gssi, set<Issi>>

  ghost predicate NoEmptyGroup(aff: Affiliations) {
    forall g :: g in aff ==> aff[g] != {}
  }

  /** The groups a subscriber belongs to. */
  ghost function GroupsOf(aff: Affiliations, issi: Issi): set<Gssi> {
    set g | g in aff && issi in aff[g]
  }

  function Listed(gssis: seq<Gssi>): set<Gssi> {
    set g | g in gssis
  }

  /** The tables after removing a subscriber from the given groups. */
  ghost function Removed(aff: Affiliations, issi: Issi, from: set<Gssi>): Affiliations {
    map g | g in aff && !(g in from && aff[g] - {issi} == {}) :: if g in from then aff[g] - {issi} else aff[g]
  }

  ghost function Joined(aff: Affiliations, issi: Issi, to: set<Gssi>): Affiliations {
    map g | g in aff.Keys + to :: (if g in aff then aff[g] else {}) + (if g in to then {issi} else {})
  }

  /** One group's members without a subscriber, and the group itself gone when nobody is left. */
  function LeftBy(aff: Affiliations, issi: Issi, g: Gssi): Affiliations
    requires g in aff
  {
    var members := aff[g] - {issi};
    if members == {} then aff - {g} else aff[g := members]
  }

  function JoinedBy(aff: Affiliations, issi: Issi, g: Gssi): Affiliations {
    aff[g := (if g in aff then aff[g] else {}) + {issi}]
  }

  lemma RemovedOne(aff: Affiliations, issi: Issi, from: set<Gssi>, g: Gssi)
    ensures var soFar := Removed(aff, issi, from);
            Removed(aff, issi, from + {g}) == if g in soFar then LeftBy(soFar, issi, g) else soFar
  {
    var soFar, next := Removed(aff, issi, from), Removed(aff, issi, from + {g});
    var step := if g in soFar then LeftBy(soFar, issi, g) else soFar;
    if g in soFar {
      assert soFar[g] - {issi} == aff[g] - {issi};
    }
    forall k
      ensures k in next <==> k in step
      ensures k in next ==> next[k] == step[k]
    {
    }
  }

  lemma JoinedOne(aff: Affiliations, issi: Issi, to: set<Gssi>, g: Gssi)
    ensures Joined(aff, issi, to + {g}) == JoinedBy(Joined(aff, issi, to), issi, g)
  {
    var soFar, next := Joined(aff, issi, to), Joined(aff, issi, to + {g});
    var step := JoinedBy(soFar, issi, g);
    forall k | k in next
      ensures next[k] == step[k]
    {
    }
  }

  lemma StillListed(aff: Affiliations, issi: Issi, done: set<Gssi>, g: Gssi)
    requires g in aff && g !in done
    ensures g in Removed(aff, issi, done)
  {
  }

  lemma MoveOne(all: set<Gssi>, todo: set<Gssi>, g: Gssi)
    requires g in todo && todo <= all
    ensures all - todo + {g} == all - (todo - {g}) && all - {} == all
  {
  }

  lemma NothingChanged(aff: Affiliations, issi: Issi)
    ensures Removed(aff, issi, {}) == aff && Joined(aff, issi, {}) == aff
  {
    assert forall g :: g in aff ==> Joined(aff, issi, {})[g] == aff[g];
  }

  lemma ListedOne(gssis: seq<Gssi>, i: nat)
    requires i < |gssis|
    ensures Listed(gssis[..i + 1]) == Listed(gssis[..i]) + {gssis[i]}
    ensures Listed(gssis[..0]) == {} && gssis[..|gssis|] == gssis
  {
  }

  lemma AllListed(gssis: seq<Gssi>, done: set<Gssi>)
    requires if gssis == [] then done == {} else done == Listed(gssis[..|gssis|])
    ensures done == Listed(gssis)
  {
    assert gssis[..|gssis|] == gssis;
  }

  lemma RemovedView(aff: Affiliations, issi: Issi, from: set<Gssi>, other: Issi)
    requires NoEmptyGroup(aff)
    ensures NoEmptyGroup(Removed(aff, issi, from))
    ensures GroupsOf(Removed(aff, issi, from), other)
            == if other == issi then GroupsOf(aff, other) - from else GroupsOf(aff, other)
  {
    var after := Removed(aff, issi, from);
    forall g | g in after
      ensures after[g] != {}
    {
      assert g !in from ==> aff[g] != {};
    }
    forall g
      ensures g in GroupsOf(after, other) <==> g in GroupsOf(aff, other) && !(g in from && other == issi)
    {
      if g in aff && other in aff[g] && other != issi {
        assert other in aff[g] - {issi};
      }
    }
    if other == issi {
      assert GroupsOf(after, other) == GroupsOf(aff, other) - from;
    } else {
      assert GroupsOf(after, other) == GroupsOf(aff, other);
    }
  }

  lemma JoinedView(aff: Affiliations, issi: Issi, to: set<Gssi>, other: Issi)
    requires NoEmptyGroup(aff)
    ensures NoEmptyGroup(Joined(aff, issi, to))
    ensures GroupsOf(Joined(aff, issi, to), other)
            == if other == issi then GroupsOf(aff, other) + to else GroupsOf(aff, other)
  {
    var after := Joined(aff, issi, to);
    forall g | g in after
      ensures after[g] != {}
      ensures other in after[g] <==> (g in aff && other in aff[g]) || (g in to && other == issi)
    {
      if g in to {
        assert issi in after[g];
      } else {
        assert after[g] == aff[g];
      }
    }
    assert forall g :: g in GroupsOf(after, other) <==> g in GroupsOf(aff, other) || (g in to && other == issi);
    if other == issi {
      assert GroupsOf(after, other) == GroupsOf(aff, other) + to;
    } else {
      assert GroupsOf(after, other) == GroupsOf(aff, other);
    }
  }

  // ---- updates, and the simple view of them ----

  datatype Update =
    | Register(issi: Issi, origin: string, gssis: seq<Gssi>)
    | Deregister(issi: Issi)
    | Affiliate(issi: Issi, gssis: seq<Gssi>)
    | Deaffiliate(issi: Issi, gssis: seq<Gssi>)

  datatype Tables = Tables(issis: map<Issi, string>, aff: Affiliations)

  ghost function Apply(name: string, t: Tables, u: Update): Tables {
    match u
    case Register(issi, origin, gssis) =>
      Tables(t.issis[issi := if origin == "" then name else origin],
             Joined(Removed(t.aff, issi, t.aff.Keys), issi, Listed(gssis)))
    case Deregister(issi) => Tables(t.issis - {issi}, Removed(t.aff, issi, t.aff.Keys))
    case Affiliate(issi, gssis) => t.(aff := Joined(t.aff, issi, Listed(gssis)))
    case Deaffiliate(issi, gssis) => t.(aff := Removed(t.aff, issi, Listed(gssis)))
  }

  ghost function ApplyAll(name: string, t: Tables, us: seq<Update>): Tables {
    if us == [] then t else Apply(name, ApplyAll(name, t, us[..|us| - 1]), us[|us| - 1])
  }

  /** One subscriber's groups, told without any table: a register replaces them, a deregister clears them. */
  function Heard(issi: Issi, groups: set<Gssi>, u: Update): set<Gssi> {
    if u.issi != issi then groups
    else
      match u
      case Register(_, _, gssis) => Listed(gssis)
      case Deregister(_) => {}
      case Affiliate(_, gssis) => groups + Listed(gssis)
      case Deaffiliate(_, gssis) => groups - Listed(gssis)
  }

  function HeardAll(issi: Issi, groups: set<Gssi>, us: seq<Update>): set<Gssi> {
    if us == [] then groups else Heard(issi, HeardAll(issi, groups, us[..|us| - 1]), us[|us| - 1])
  }

  lemma ApplyRefines(name: string, t: Tables, u: Update, issi: Issi)
    requires NoEmptyGroup(t.aff)
    ensures NoEmptyGroup(Apply(name, t, u).aff)
    ensures GroupsOf(Apply(name, t, u).aff, issi) == Heard(issi, GroupsOf(t.aff, issi), u)
  {
    match u {
      case Register(i, _, gssis) =>
        RemovedView(t.aff, i, t.aff.Keys, issi);
        JoinedView(Removed(t.aff, i, t.aff.Keys), i, Listed(gssis), issi);
      case Deregister(i) => RemovedView(t.aff, i, t.aff.Keys, issi);
      case Affiliate(i, gssis) => JoinedView(t.aff, i, Listed(gssis), issi);
      case Deaffiliate(i, gssis) => RemovedView(t.aff, i, Listed(gssis), issi);
    }
  }

  /** The inverse tables agree with the simple view after any run of updates, for every subscriber. */
  lemma {:induction false} RunRefines(name: string, t: Tables, us: seq<Update>, issi: Issi)
    requires NoEmptyGroup(t.aff)
    ensures NoEmptyGroup(ApplyAll(name, t, us).aff)
    ensures GroupsOf(ApplyAll(name, t, us).aff, issi) == HeardAll(issi, GroupsOf(t.aff, issi), us)
  {
    if us != [] {
      RunRefines(name, t, us[..|us| - 1], issi);
      ApplyRefines(name, ApplyAll(name, t, us[..|us| - 1]), us[|us| - 1], issi);
    }
  }

  lemma {:induction false} HeardAllConcat(issi: Issi, groups: set<Gssi>, a: seq<Update>, b: seq<Update>)
    ensures HeardAll(issi, groups, a + b) == HeardAll(issi, HeardAll(issi, groups, a), b)
  {
    if b == [] {
      assert a + b == a;
    } else {
      HeardAllConcat(issi, groups, a, b[..|b| - 1]);
      assert (a + b)[..|a + b| - 1] == a + b[..|b| - 1];
    }
  }

  lemma {:induction false} OthersDoNotMatter(issi: Issi, groups: set<Gssi>, us: seq<Update>)
    requires forall i :: 0 <= i < |us| ==> us[i].issi != issi
    ensures HeardAll(issi, groups, us) == groups
  {
    if us != [] {
      OthersDoNotMatter(issi, groups, us[..|us| - 1]);
    }
  }

  /** After a register the subscriber has exactly the groups it sent, whatever came before, and whatever others
      do afterwards. */
  lemma LastRegisterWins(name: string, t: Tables, before: seq<Update>, issi: Issi, origin: string,
                         gssis: seq<Gssi>, after: seq<Update>)
    requires NoEmptyGroup(t.aff)
    requires forall i :: 0 <= i < |after| ==> after[i].issi != issi
    ensures GroupsOf(ApplyAll(name, t, before + [Register(issi, origin, gssis)] + after).aff, issi) == Listed(gssis)
  {
    var r := [Register(issi, origin, gssis)];
    var start := GroupsOf(t.aff, issi);
    RunRefines(name, t, before + r + after, issi);
    HeardAllConcat(issi, start, before + r, after);
    HeardAllConcat(issi, start, before, r);
    assert r[..0] == [];
    OthersDoNotMatter(issi, HeardAll(issi, start, before + r), after);
  }

  // ---- the peer ----

  class Peer {
    const name: string
    var issis: map<Issi, string>
    var gssiAffiliations: map<Gssi, set<Issi>>

    constructor (name: string)
      ensures this.name == name && issis == map[] && gssiAffiliations == map[]
    {
      this.name, issis, gssiAffiliations := name, map[], map[];
    }

    ghost function Contents(): Tables
      reads this
    {
      Tables(issis, gssiAffiliations)
    }

    /** Takes a subscriber out of one group. */
    method LeaveGroup(gssi: Gssi, issi: Issi)
      requires gssi in gssiAffiliations
      modifies this`gssiAffiliations
      ensures gssiAffiliations == LeftBy(old(gssiAffiliations), issi, gssi)
    {
      var members := gssiAffiliations[gssi] - {issi};
      gssiAffiliations := gssiAffiliations[gssi := members];
      if |members| == 0 {
        gssiAffiliations := gssiAffiliations - {gssi};
        assert gssiAffiliations == old(gssiAffiliations) - {gssi};
      }
    }

    /** The loop that takes a subscriber out of every group. */
    method LeaveAllGroups(issi: Issi)
      modifies this`gssiAffiliations
      ensures gssiAffiliations == Removed(old(gssiAffiliations), issi, old(gssiAffiliations.Keys))
    {
      hide Removed, LeftBy;
      var todo := gssiAffiliations.Keys;
      ghost var before := gssiAffiliations;
      ghost var done: set<Gssi> := {};
      NothingChanged(before, issi);
      while todo != {}
        invariant todo <= before.Keys && done == before.Keys - todo
        invariant gssiAffiliations == Removed(before, issi, done)
        decreases |todo|
      {
        var gssi :| gssi in todo;
        StillListed(before, issi, done, gssi);
        RemovedOne(before, issi, done, gssi);
        LeaveGroup(gssi, issi);
        MoveOne(before.Keys, todo, gssi);
        todo := todo - {gssi};
        done := done + {gssi};
      }
    }

    /** Replaces whatever was known: the affiliations follow in a second call. */
    method RegisterISSI(issi: Issi, origin: string)
      modifies this
      ensures issis == old(issis)[issi := if origin == "" then name else origin]
      ensures gssiAffiliations == Removed(old(gssiAffiliations), issi, old(gssiAffiliations.Keys))
    {
      var from := if origin == "" then name else origin;
      issis := issis[issi := from];
      LeaveAllGroups(issi);
    }

    method DeregisterISSI(issi: Issi)
      modifies this
      ensures Contents() == Apply(name, old(Contents()), Deregister(issi))
    {
      issis := issis - {issi};
      LeaveAllGroups(issi);
    }

    method AffiliateISSI(issi: Issi, gssis: seq<Gssi>)
      modifies this`gssiAffiliations
      ensures Contents() == Apply(name, old(Contents()), Affiliate(issi, gssis))
    {
      hide Joined, Listed;
      ghost var before := gssiAffiliations;
      ghost var done: set<Gssi> := {};
      NothingChanged(before, issi);
      for i := 0 to |gssis|
        invariant i > 0 ==> done == Listed(gssis[..i])
        invariant i == 0 ==> done == {}
        invariant gssiAffiliations == Joined(before, issi, done)
      {
        var gssi := gssis[i];
        JoinedOne(before, issi, done, gssi);
        ListedOne(gssis, i);
        if gssi !in gssiAffiliations {
          gssiAffiliations := gssiAffiliations[gssi := {}];
        }
        gssiAffiliations := gssiAffiliations[gssi := gssiAffiliations[gssi] + {issi}];
        done := done + {gssi};
      }
      AllListed(gssis, done);
    }

    method DeaffiliateISSI(issi: Issi, gssis: seq<Gssi>)
      modifies this`gssiAffiliations
      ensures Contents() == Apply(name, old(Contents()), Deaffiliate(issi, gssis))
    {
      hide Removed, Listed, LeftBy;
      ghost var before := gssiAffiliations;
      ghost var done: set<Gssi> := {};
      NothingChanged(before, issi);
      for i := 0 to |gssis|
        invariant i > 0 ==> done == Listed(gssis[..i])
        invariant i == 0 ==> done == {}
        invariant gssiAffiliations == Removed(before, issi, done)
      {
        var gssi := gssis[i];
        RemovedOne(before, issi, done, gssi);
        ListedOne(gssis, i);
        if gssi in gssiAffiliations {
          LeaveGroup(gssi, issi);
        }
        done := done + {gssi};
      }
      AllListed(gssis, done);
    }

    /** `handleSubscriberUpdate` and `handleAffiliateUpdate`. */
    method HandleUpdate(u: Update)
      requires NoEmptyGroup(gssiAffiliations)
      modifies this
      ensures Contents() == Apply(name, old(Contents()), u) && NoEmptyGroup(gssiAffiliations)
      ensures forall issi :: issi != u.issi ==>
                && GroupsOf(gssiAffiliations, issi) == GroupsOf(old(gssiAffiliations), issi)
                && (issi in issis <==> issi in old(issis)) && (issi in issis ==> issis[issi] == old(issis)[issi])
      ensures match u
              case Register(issi, origin, gssis) =>
                && GroupsOf(gssiAffiliations, issi) == (set g | g in gssis)
                && issi in issis && issis[issi] == if origin == "" then name else origin
              case Deregister(issi) => GroupsOf(gssiAffiliations, issi) == {} && issi !in issis
              case Affiliate(issi, gssis) =>
                && GroupsOf(gssiAffiliations, issi) == GroupsOf(old(gssiAffiliations), issi) + (set g | g in gssis)
                && issis == old(issis)
              case Deaffiliate(issi, gssis) =>
                && GroupsOf(gssiAffiliations, issi) == GroupsOf(old(gssiAffiliations), issi) - (set g | g in gssis)
                && issis == old(issis)
    {
      forall issi
        ensures GroupsOf(Apply(name, Contents(), u).aff, issi) == Heard(issi, GroupsOf(gssiAffiliations, issi), u)
      {
        ApplyRefines(name, Contents(), u, issi);
      }
      hide Removed, Joined, GroupsOf;
      ApplyRefines(name, Contents(), u, u.issi);
      match u {
        case Register(issi, origin, gssis) =>
          RegisterISSI(issi, origin);
          AffiliateISSI(issi, gssis);
        case Deregister(issi) => DeregisterISSI(issi);
        case Affiliate(issi, gssis) => AffiliateISSI(issi, gssis);
        case Deaffiliate(issi, gssis) => DeaffiliateISSI(issi, gssis);
      }
    }

    /** Somebody listens to the group exactly when it is listed. */
    method HasSubscribersOnGSSI(gssi: Gssi) returns (has: bool)
      requires NoEmptyGroup(gssiAffiliations)
      ensures has <==> exists issi: Issi :: gssi in GroupsOf(gssiAffiliations, issi)
    {
      has := gssi in gssiAffiliations && |gssiAffiliations[gssi]| > 0;
      if has {
        ghost var issi :| issi in gssiAffiliations[gssi];
        assert gssi in GroupsOf(gssiAffiliations, issi);
      }
    }
  }

  /** A reconnecting peer takes over the old peer's tables, which are left empty. */
  method AdoptPeerState(dst: Peer, src: Peer)
    requires dst != src
    modifies dst, src
    ensures dst.Contents() == old(src.Contents())
    ensures src.issis == map[] && src.gssiAffiliations == map[]
  {
    var issis, gssis := src.issis, src.gssiAffiliations;
    dst.issis := issis;
    dst.gssiAffiliations := gssis;
    src.issis := map[];
    src.gssiAffiliations := map[];
  }
}
