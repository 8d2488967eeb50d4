/**
 Bulk link and unlink between buildings and targets: every id and every pair is checked before the
 first write, and the relation then changes as a set.
 */
module BulkLink {
  import opened Sequences

  datatype Mode = Link | Unlink

  datatype Pair = Pair(building: nat, target: nat)

  datatype Rejection = EmptyInput | BuildingsInvalid | NotPermitted | TargetsInvalid

  datatype Answer =
    | Done(created: nat, removed: nat, alreadyLinked: nat, notLinked: nat)
    | Rejected(why: Rejection)

  /** What the actor may act on, and which pairs are legal. `companies` is the company of a building
      in scope; a target resolves when it is a key of `targets`, which gives its company. Only the
      customer and contact relations compare companies. */
  datatype Reach = Reach(buildings: map<nat, nat>, permitted: set<nat>, targets: map<nat, nat>, sameCompany: bool)
  {
    predicate Legal(p: Pair) {
      p.building in buildings && p.target in targets && (sameCompany ==> buildings[p.building] == targets[p.target])
    }
  }

  function AsSet(ids: seq<nat>): set<nat> {
    set i | 0 <= i < |ids| :: ids[i]
  }

  function SetOf(pairs: seq<Pair>): set<Pair> {
    set i | 0 <= i < |pairs| :: pairs[i]
  }

  ghost function Product(buildings: set<nat>, targets: set<nat>): set<Pair> {
    set b, t | b in buildings && t in targets :: Pair(b, t)
  }

  ghost function Pairs(buildings: seq<nat>, targets: seq<nat>): set<Pair> {
    Product(AsSet(buildings), AsSet(targets))
  }

  predicate Distinct<T(==)>(s: seq<T>) {
    forall i, j :: 0 <= i < j < |s| ==> s[i] != s[j]
  }

  /** When the request is turned down, in the order the checks are made. */
  ghost function Verdict(reach: Reach, buildings: seq<nat>, targets: seq<nat>): Option<Rejection> {
    if buildings == [] || targets == [] then Some(EmptyInput)
    else if !(AsSet(buildings) <= reach.buildings.Keys) then Some(BuildingsInvalid)
    else if !(AsSet(buildings) <= reach.permitted) then Some(NotPermitted)
    else if !(AsSet(targets) <= reach.targets.Keys) then Some(TargetsInvalid)
    else if exists p :: p in Pairs(buildings, targets) && !reach.Legal(p) then Some(TargetsInvalid)
    else None
  }

  /** Where `x` first occurs, or the length when it does not. */
  function FirstAt(ids: seq<nat>, x: nat): nat {
    if ids == [] || ids[0] == x then 0 else 1 + FirstAt(ids[1..], x)
  }

  ghost predicate InOrderOfFirstUse(unique: seq<nat>, ids: seq<nat>) {
    forall j, k :: 0 <= j < k < |unique| ==> FirstAt(ids, unique[j]) < FirstAt(ids, unique[k])
  }

  lemma {:induction false} FirstAtPrefix(head: seq<nat>, tail: seq<nat>, x: nat)
    ensures FirstAt(head, x) <= |head|
    ensures FirstAt(head, x) < |head| <==> x in AsSet(head)
    ensures x in AsSet(head) ==> FirstAt(head + tail, x) == FirstAt(head, x)
    ensures x !in AsSet(head) ==> FirstAt(head + tail, x) == |head| + FirstAt(tail, x)
  {
    if head == [] {
      assert head + tail == tail;
    } else {
      FirstAtPrefix(head[1..], tail, x);
      assert (head + tail)[1..] == head[1..] + tail;
      assert AsSet(head) == {head[0]} + AsSet(head[1..]) by { HeadAndRest(head); }
    }
  }

  lemma HeadAndRest(ids: seq<nat>)
    requires ids != []
    ensures AsSet(ids) == {ids[0]} + AsSet(ids[1..])
  {
    forall x | x in AsSet(ids) ensures x in {ids[0]} + AsSet(ids[1..]) {
      var i :| 0 <= i < |ids| && ids[i] == x;
      assert i > 0 ==> ids[1..][i - 1] == x;
    }
    assert forall i :: 0 <= i < |ids[1..]| ==> ids[1..][i] == ids[i + 1];
  }

  lemma FirstUseSnoc(unique: seq<nat>, ids: seq<nat>, i: nat)
    requires i < |ids| && AsSet(unique) == AsSet(ids[..i]) && ids[i] !in AsSet(unique)
    requires InOrderOfFirstUse(unique, ids)
    ensures InOrderOfFirstUse(unique + [ids[i]], ids)
  {
    assert ids == ids[..i] + ids[i..];
    FirstAtPrefix(ids[..i], ids[i..], ids[i]);
    forall j | 0 <= j < |unique| ensures FirstAt(ids, unique[j]) < FirstAt(ids, ids[i]) {
      assert unique[j] in AsSet(unique);
      FirstAtPrefix(ids[..i], ids[i..], unique[j]);
    }
  }

  /** `list(dict.fromkeys(ids))`: first occurrences, in order. */
  method Deduplicate(ids: seq<nat>) returns (unique: seq<nat>)
    ensures Distinct(unique) && AsSet(unique) == AsSet(ids)
    ensures InOrderOfFirstUse(unique, ids)
  {
    hide InOrderOfFirstUse;
    unique := [];
    NothingUsed(ids);
    var seen: set<nat> := {};
    for i := 0 to |ids|
      invariant Distinct(unique) && seen == AsSet(unique) == AsSet(ids[..i])
      invariant InOrderOfFirstUse(unique, ids)
    {
      AsSetSnoc(ids[..i], ids[i]);
      assert ids[..i + 1] == ids[..i] + [ids[i]];
      if ids[i] !in seen {
        NotAmong(unique, ids[i]);
        AsSetSnoc(unique, ids[i]);
        FirstUseSnoc(unique, ids, i);
        unique := unique + [ids[i]];
        seen := seen + {ids[i]};
      }
    }
    assert ids[..|ids|] == ids;
  }

  lemma NothingUsed(ids: seq<nat>)
    ensures InOrderOfFirstUse([], ids)
  {}

  lemma AsSetSnoc(ids: seq<nat>, x: nat)
    ensures AsSet(ids + [x]) == AsSet(ids) + {x}
  {
    assert (ids + [x])[|ids|] == x;
    forall y | y in AsSet(ids) ensures y in AsSet(ids + [x]) {
      var i :| 0 <= i < |ids| && ids[i] == y;
      assert (ids + [x])[i] == y;
    }
  }

  lemma NotAmong(ids: seq<nat>, x: nat)
    requires x !in AsSet(ids)
    ensures forall i :: 0 <= i < |ids| ==> ids[i] != x
  {}

  /** How many of the ids resolve, which the view compares with how many were asked for. */
  method Resolve(ids: seq<nat>, known: set<nat>) returns (found: seq<nat>)
    requires Distinct(ids)
    ensures |found| == |ids| <==> AsSet(ids) <= known
    ensures |found| == |ids| ==> found == ids
  {
    found := [];
    for i := 0 to |ids|
      invariant |found| <= i
      invariant |found| == i <==> AsSet(ids[..i]) <= known
      invariant |found| == i ==> found == ids[..i]
    {
      AsSetSnoc(ids[..i], ids[i]);
      assert ids[..i + 1] == ids[..i] + [ids[i]];
      if ids[i] in known {
        found := found + [ids[i]];
      }
    }
    assert ids[..|ids|] == ids;
  }

  lemma PairsSnoc(pairs: seq<Pair>, p: Pair)
    ensures SetOf(pairs + [p]) == SetOf(pairs) + {p}
    ensures p !in SetOf(pairs) && Distinct(pairs) ==> Distinct(pairs + [p])
  {
    assert (pairs + [p])[|pairs|] == p;
    forall q | q in SetOf(pairs) ensures q in SetOf(pairs + [p]) {
      var i :| 0 <= i < |pairs| && pairs[i] == q;
      assert (pairs + [p])[i] == q;
    }
    if p !in SetOf(pairs) && Distinct(pairs) {
      forall i | 0 <= i < |pairs| ensures pairs[i] != p {
        assert pairs[i] in SetOf(pairs);
      }
    }
  }

  lemma ProductGrows(bs: set<nat>, b: nat, ts: set<nat>, t: nat)
    ensures Product({b}, ts + {t}) == Product({b}, ts) + {Pair(b, t)}
    ensures Product(bs + {b}, ts) == Product(bs, ts) + Product({b}, ts)
    ensures b !in bs && t !in ts ==> Pair(b, t) !in Product(bs, ts + {t}) + Product({b}, ts)
    ensures Product(bs, {}) == {} && Product({}, ts) == {}
  {}

  lemma NextIsNew(ids: seq<nat>, i: nat)
    requires Distinct(ids) && i < |ids|
    ensures ids[i] !in AsSet(ids[..i])
    ensures AsSet(ids[..i + 1]) == AsSet(ids[..i]) + {ids[i]}
    ensures ids[i] in AsSet(ids)
  {}

  /** One building against every target, stopping at the first illegal pair. */
  method CollectRow(reach: Reach, building: nat, targets: seq<nat>, before: seq<Pair>)
    returns (pairs: seq<Pair>, ok: bool)
    requires Distinct(targets) && Distinct(before)
    requires forall p :: p in SetOf(before) ==> p.building != building
    ensures ok <==> forall p :: p in Product({building}, AsSet(targets)) ==> reach.Legal(p)
    ensures ok ==> Distinct(pairs) && SetOf(pairs) == SetOf(before) + Product({building}, AsSet(targets))
    ensures ok ==> |pairs| == |before| + |targets|
  {
    pairs := before;
    ProductGrows({}, building, {}, 0);
    for j := 0 to |targets|
      invariant Distinct(pairs) && |pairs| == |before| + j
      invariant SetOf(pairs) == SetOf(before) + Product({building}, AsSet(targets[..j]))
      invariant forall p :: p in Product({building}, AsSet(targets[..j])) ==> reach.Legal(p)
    {
      var p := Pair(building, targets[j]);
      NextIsNew(targets, j);
      ProductGrows({}, building, AsSet(targets[..j]), targets[j]);
      if !reach.Legal(p) {
        assert p in Product({building}, AsSet(targets));
        return pairs, false;
      }
      PairsSnoc(pairs, p);
      pairs := pairs + [p];
    }
    assert targets[..|targets|] == targets;
    ok := true;
  }

  /** The nested loop over buildings and targets. */
  method CollectPairs(reach: Reach, buildings: seq<nat>, targets: seq<nat>) returns (pairs: seq<Pair>, ok: bool)
    requires Distinct(buildings) && Distinct(targets)
    ensures ok <==> forall p :: p in Pairs(buildings, targets) ==> reach.Legal(p)
    ensures ok ==> Distinct(pairs) && SetOf(pairs) == Pairs(buildings, targets)
    ensures ok ==> |pairs| == |buildings| * |targets|
  {
    hide Reach.Legal;
    pairs := [];
    ProductGrows({}, 0, AsSet(targets), 0);
    for i := 0 to |buildings|
      invariant Distinct(pairs) && |pairs| == i * |targets|
      invariant SetOf(pairs) == Product(AsSet(buildings[..i]), AsSet(targets))
      invariant forall p :: p in Product(AsSet(buildings[..i]), AsSet(targets)) ==> reach.Legal(p)
    {
      NextIsNew(buildings, i);
      ProductGrows(AsSet(buildings[..i]), buildings[i], AsSet(targets), 0);
      var ok';
      pairs, ok' := CollectRow(reach, buildings[i], targets, pairs);
      if !ok' {
        RowIsPart(buildings, buildings[i], targets);
        return pairs, false;
      }
    }
    assert buildings[..|buildings|] == buildings;
    ok := true;
  }

  lemma RowIsPart(buildings: seq<nat>, b: nat, targets: seq<nat>)
    requires b in AsSet(buildings)
    ensures Product({b}, AsSet(targets)) <= Pairs(buildings, targets)
  {}

  // ----- The tables -----

  /** A customer user's access to a building, through a membership of a customer. */
  datatype Access = Access(membership: nat, customer: nat, building: nat)

  /** Every per-user access row's pair is linked. */
  predicate AccessIsLinked(access: set<Access>, links: set<Pair>) {
    forall a :: a in access ==> Pair(a.building, a.customer) in links
  }

  function Revoke(access: set<Access>, p: Pair): set<Access> {
    set a | a in access && !(a.customer == p.target && a.building == p.building)
  }

  ghost function RevokeAll(access: set<Access>, pairs: set<Pair>): set<Access> {
    set a | a in access && Pair(a.building, a.customer) !in pairs
  }

  lemma NextPairIsNew(pairs: seq<Pair>, k: nat)
    requires Distinct(pairs) && k < |pairs|
    ensures SetOf(pairs[..k + 1]) == SetOf(pairs[..k]) + {pairs[k]} && pairs[k] !in SetOf(pairs[..k])
  {
    assert pairs[..k + 1] == pairs[..k] + [pairs[k]];
    PairsSnoc(pairs[..k], pairs[k]);
  }

  lemma CountOneMore(d: set<Pair>, p: Pair, links: set<Pair>)
    requires p !in d
    ensures |(d + {p}) - links| == |d - links| + if p in links then 0 else 1
    ensures |(d + {p}) * links| == |d * links| + if p in links then 1 else 0
  {
    if p in links {
      assert (d + {p}) * links == d * links + {p};
      assert (d + {p}) - links == d - links;
    } else {
      assert (d + {p}) - links == d - links + {p};
      assert (d + {p}) * links == d * links;
    }
  }

  lemma OneMorePair(pairs: seq<Pair>, k: nat, links: set<Pair>)
    requires Distinct(pairs) && k < |pairs|
    ensures SetOf(pairs[..k + 1]) == SetOf(pairs[..k]) + {pairs[k]} && pairs[k] !in SetOf(pairs[..k])
    ensures |SetOf(pairs[..k + 1]) - links| == |SetOf(pairs[..k]) - links| + if pairs[k] in links then 0 else 1
    ensures |SetOf(pairs[..k + 1]) * links| == |SetOf(pairs[..k]) * links| + if pairs[k] in links then 1 else 0
  {
    hide SetOf, Distinct;
    NextPairIsNew(pairs, k);
    CountOneMore(SetOf(pairs[..k]), pairs[k], links);
  }

  lemma UnlinkStep(pairs: seq<Pair>, k: nat, links: set<Pair>)
    requires Distinct(pairs) && k < |pairs|
    ensures pairs[k] in links - SetOf(pairs[..k]) <==> pairs[k] in links
    ensures links - SetOf(pairs[..k + 1])
            == if pairs[k] in links then links - SetOf(pairs[..k]) - {pairs[k]} else links - SetOf(pairs[..k])
    ensures SetOf(pairs[..k + 1]) * links
            == if pairs[k] in links then SetOf(pairs[..k]) * links + {pairs[k]} else SetOf(pairs[..k]) * links
  {
    hide SetOf, Distinct;
    NextPairIsNew(pairs, k);
  }

  lemma {:induction false} DistinctCount(pairs: seq<Pair>)
    requires Distinct(pairs)
    ensures |SetOf(pairs)| == |pairs|
  {
    if pairs != [] {
      var rest, p := pairs[..|pairs| - 1], pairs[|pairs| - 1];
      DistinctCount(rest);
      OneMorePair(pairs, |rest|, {});
      assert pairs[..|rest| + 1] == pairs;
    }
  }

  lemma NoPairs(links: set<Pair>)
    ensures SetOf([]) == {} && links + {} == links && links - {} == links && {} * links == {} && {} - links == {}
  {}

  lemma RevokeStep(access: set<Access>, pairs: set<Pair>, p: Pair)
    ensures Revoke(RevokeAll(access, pairs), p) == RevokeAll(access, pairs + {p})
    ensures RevokeAll(access, {}) == access
  {}

  /** When a request is accepted, in the actor's terms: it names buildings and targets, every one within
      reach, the buildings also permitted, and for the customer and contact relations every pair of one
      company. */
  ghost predicate Acceptable(reach: Reach, buildings: seq<nat>, targets: seq<nat>) {
    && buildings != [] && targets != []
    && (forall b :: b in buildings ==> b in reach.buildings && b in reach.permitted)
    && (forall t :: t in targets ==> t in reach.targets)
    && (reach.sameCompany ==>
          forall b, t :: b in buildings && t in targets ==> reach.buildings[b] == reach.targets[t])
  }

  class LinkTable {
    var links: set<Pair>
    var access: set<Access>

    constructor (links: set<Pair>, access: set<Access>)
      ensures this.links == links && this.access == access
    {
      this.links, this.access := links, access;
    }

    method LinkAll(pairs: seq<Pair>) returns (created: nat, alreadyLinked: nat)
      requires Distinct(pairs)
      modifies this`links
      ensures links == old(links) + SetOf(pairs)
      ensures created == |SetOf(pairs) - old(links)| && alreadyLinked == |SetOf(pairs) * old(links)|
    {
      hide SetOf, Distinct;
      NoPairs(old(links));
      assert pairs[..0] == [];
      created, alreadyLinked := 0, 0;
      for k := 0 to |pairs|
        invariant links == old(links) + SetOf(pairs[..k])
        invariant created == |SetOf(pairs[..k]) - old(links)|
        invariant alreadyLinked == |SetOf(pairs[..k]) * old(links)|
      {
        OneMorePair(pairs, k, old(links));
        if pairs[k] in links {
          alreadyLinked := alreadyLinked + 1;
          continue;
        }
        links := links + {pairs[k]};
        created := created + 1;
      }
      assert pairs[..|pairs|] == pairs;
    }

    /** Removing a customer link also revokes every per-user access row of that pair. */
    method UnlinkAll(pairs: seq<Pair>, cascade: bool) returns (removed: nat, notLinked: nat)
      requires Distinct(pairs)
      modifies this
      ensures links == old(links) - SetOf(pairs)
      ensures removed == |SetOf(pairs) * old(links)| && notLinked == |SetOf(pairs) - old(links)|
      ensures access == if cascade then RevokeAll(old(access), SetOf(pairs) * old(links)) else old(access)
    {
      hide SetOf, Distinct, Revoke, RevokeAll;
      NoPairs(old(links));
      assert pairs[..0] == [];
      RevokeStep(access, {}, Pair(0, 0));
      removed, notLinked := 0, 0;
      for k := 0 to |pairs|
        invariant links == old(links) - SetOf(pairs[..k])
        invariant removed == |SetOf(pairs[..k]) * old(links)|
        invariant notLinked == |SetOf(pairs[..k]) - old(links)|
        invariant access == if cascade then RevokeAll(old(access), SetOf(pairs[..k]) * old(links)) else old(access)
      {
        OneMorePair(pairs, k, old(links));
        UnlinkStep(pairs, k, old(links));
        if pairs[k] !in links {
          notLinked := notLinked + 1;
          continue;
        }
        RevokeStep(old(access), SetOf(pairs[..k]) * old(links), pairs[k]);
        if cascade {
          access := Revoke(access, pairs[k]);
        }
        links := links - {pairs[k]};
        removed := removed + 1;
      }
      assert pairs[..|pairs|] == pairs;
    }

    /** `BuildingBulkLinkView.post`: turned down without a write, or applied to all N x M pairs. */
    method Post(reach: Reach, buildings: seq<nat>, targets: seq<nat>, mode: Mode, cascade: bool)
      returns (answer: Answer)
      modifies this
      ensures var r := Request(reach, buildings, targets, mode, cascade);
              && answer == AnswerTo(old(Tables(links, access)), r)
              && Tables(links, access) == Effect(old(Tables(links, access)), r)
      ensures match Verdict(reach, buildings, targets)
              case Some(why) => answer == Rejected(why)
              case None => answer.Done? && Total(answer) == |AsSet(buildings)| * |AsSet(targets)|
      ensures old(AccessIsLinked(access, links)) && (mode == Link || cascade) ==> AccessIsLinked(access, links)
      ensures answer.Done? <==> Acceptable(reach, buildings, targets)
      ensures forall p :: p in links <==>
                if Acceptable(reach, buildings, targets) && p.building in buildings && p.target in targets
                then mode == Link else p in old(links)
      ensures forall a :: a in access <==>
                && a in old(access)
                && !(mode == Unlink && cascade && Acceptable(reach, buildings, targets)
                     && a.building in buildings && a.customer in targets && Pair(a.building, a.customer) in old(links))
    {
      hide AsSet, SetOf, Product, Reach.Legal, Changed, Counted, Distinct, AccessIsLinked, InOrderOfFirstUse,
           Acceptable;
      EffectByPairs(Tables(links, access), Request(reach, buildings, targets, mode, cascade));
      if AccessIsLinked(access, links) && (mode == Link || cascade) {
        EffectKeepsAccessLinked(Tables(links, access), Request(reach, buildings, targets, mode, cascade));
      }
      if buildings == [] || targets == [] {
        return Rejected(EmptyInput);
      }
      var buildingIds := Deduplicate(buildings);
      var targetIds := Deduplicate(targets);
      var found := Resolve(buildingIds, reach.buildings.Keys);
      if |found| != |buildingIds| {
        return Rejected(BuildingsInvalid);
      }
      var permitted := Resolve(buildingIds, reach.permitted);
      if |permitted| != |buildingIds| {
        return Rejected(NotPermitted);
      }
      var resolved := Resolve(targetIds, reach.targets.Keys);
      if |resolved| != |targetIds| {
        return Rejected(TargetsInvalid);
      }
      var pairs, ok := CollectPairs(reach, buildingIds, targetIds);
      if !ok {
        return Rejected(TargetsInvalid);
      }
      DistinctCount(pairs);
      CountsAddUp(Tables(links, access), SetOf(pairs), mode);
      DistinctIds(buildingIds);
      DistinctIds(targetIds);
      answer := Write(pairs, mode, cascade);
    }

    /** The write phase: every pair is linked, or every pair is unlinked. */
    method Write(pairs: seq<Pair>, mode: Mode, cascade: bool) returns (answer: Answer)
      requires Distinct(pairs)
      modifies this
      ensures Tables(links, access) == Changed(old(Tables(links, access)), SetOf(pairs), mode, cascade)
      ensures answer == Counted(old(Tables(links, access)), SetOf(pairs), mode)
    {
      hide SetOf, Distinct, RevokeAll;
      match mode
      case Link =>
        var created, alreadyLinked := LinkAll(pairs);
        return Done(created, 0, alreadyLinked, 0);
      case Unlink =>
        var removed, notLinked := UnlinkAll(pairs, cascade);
        return Done(0, removed, 0, notLinked);
    }
  }

  lemma {:induction false} DistinctIds(ids: seq<nat>)
    requires Distinct(ids)
    ensures |AsSet(ids)| == |ids|
  {
    if ids != [] {
      var rest := ids[..|ids| - 1];
      DistinctIds(rest);
      NextIsNew(ids, |rest|);
      assert ids[..|rest| + 1] == ids;
    }
  }

  // ----- Requests one after another -----

  datatype Request = Request(reach: Reach, buildings: seq<nat>, targets: seq<nat>, mode: Mode, cascade: bool)
  {
    ghost function Wanted(): set<Pair> {
      Pairs(buildings, targets)
    }

    ghost function Refusal(): Option<Rejection> {
      Verdict(reach, buildings, targets)
    }
  }

  datatype Tables = Tables(links: set<Pair>, access: set<Access>)
  {
    predicate Linked() {
      AccessIsLinked(access, links)
    }
  }

  /** The relation with the pairs added or taken away. */
  ghost function Changed(t: Tables, pairs: set<Pair>, mode: Mode, cascade: bool): Tables {
    match mode
    case Link => t.(links := t.links + pairs)
    case Unlink => Tables(t.links - pairs, if cascade then RevokeAll(t.access, pairs * t.links) else t.access)
  }

  ghost function Counted(t: Tables, pairs: set<Pair>, mode: Mode): Answer {
    match mode
    case Link => Done(|pairs - t.links|, 0, |pairs * t.links|, 0)
    case Unlink => Done(0, |pairs * t.links|, 0, |pairs - t.links|)
  }

  /** A request changes nothing when it is turned down. */
  ghost function Effect(t: Tables, r: Request): Tables {
    if r.Refusal().Some? then t else Changed(t, r.Wanted(), r.mode, r.cascade)
  }

  ghost function AnswerTo(t: Tables, r: Request): Answer {
    match r.Refusal()
    case Some(why) => Rejected(why)
    case None => Counted(t, r.Wanted(), r.mode)
  }

  ghost function Effects(t: Tables, requests: seq<Request>): Tables {
    if requests == [] then t else Effect(Effects(t, requests[..|requests| - 1]), requests[|requests| - 1])
  }

  function Total(answer: Answer): nat
    requires answer.Done?
  {
    answer.created + answer.removed + answer.alreadyLinked + answer.notLinked
  }

  /** The four counters add up to the number of pairs. */
  lemma CountsAddUp(t: Tables, pairs: set<Pair>, mode: Mode)
    ensures Counted(t, pairs, mode).Done? && Total(Counted(t, pairs, mode)) == |pairs|
  {
    assert pairs == (pairs - t.links) + (pairs * t.links);
  }

  lemma AsSetIs(ids: seq<nat>)
    ensures forall x :: x in AsSet(ids) <==> x in ids
  {}

  lemma PairsAre(buildings: seq<nat>, targets: seq<nat>)
    ensures forall p :: p in Pairs(buildings, targets) <==> p.building in buildings && p.target in targets
  {
    hide AsSet;
    AsSetIs(buildings);
    AsSetIs(targets);
    forall p: Pair | p.building in buildings && p.target in targets ensures p in Pairs(buildings, targets) {
      assert Pair(p.building, p.target) == p;
    }
  }

  lemma AcceptableIff(r: Request)
    ensures r.Refusal() == None <==> Acceptable(r.reach, r.buildings, r.targets)
  {
    hide AsSet, Product;
    AsSetIs(r.buildings);
    AsSetIs(r.targets);
    PairsAre(r.buildings, r.targets);
    if Acceptable(r.reach, r.buildings, r.targets) {
      forall p | p in Pairs(r.buildings, r.targets) ensures r.reach.Legal(p) {
        assert p.building in r.buildings && p.target in r.targets;
      }
    }
    if r.Refusal() == None {
      assert forall b :: b in r.buildings ==> b in AsSet(r.buildings);
      assert forall t :: t in r.targets ==> t in AsSet(r.targets);
      forall b, t | b in r.buildings && t in r.targets ensures r.reach.Legal(Pair(b, t)) {
        assert Pair(b, t) in Pairs(r.buildings, r.targets);
      }
    }
  }

  /** A request pair by pair: an accepted link joins each of its pairs, an accepted unlink parts them, no
      other pair is touched; a cascading unlink takes away exactly the access rows on the pairs it parted,
      and nothing else ever does. */
  lemma EffectByPairs(t: Tables, r: Request)
    ensures AnswerTo(t, r).Done? <==> Acceptable(r.reach, r.buildings, r.targets)
    ensures forall p :: p in Effect(t, r).links <==>
              if Acceptable(r.reach, r.buildings, r.targets) && p.building in r.buildings && p.target in r.targets
              then r.mode == Link else p in t.links
    ensures forall a :: a in Effect(t, r).access <==>
              && a in t.access
              && !(r.mode == Unlink && r.cascade && Acceptable(r.reach, r.buildings, r.targets)
                   && a.building in r.buildings && a.customer in r.targets && Pair(a.building, a.customer) in t.links)
  {
    hide Acceptable, Pairs, Verdict;
    AcceptableIff(r);
    PairsAre(r.buildings, r.targets);
  }

  /** A refused request is told the first thing that is wrong with it: nothing named, a building out of
      reach, a building not permitted, a target out of reach or of another company. */
  lemma FirstReason(r: Request)
    ensures r.Refusal() == Some(EmptyInput) <==> r.buildings == [] || r.targets == []
    ensures r.Refusal() == Some(BuildingsInvalid) <==>
              r.buildings != [] && r.targets != [] && exists b :: b in r.buildings && b !in r.reach.buildings
    ensures r.Refusal() == Some(NotPermitted) <==>
              && r.buildings != [] && r.targets != []
              && (forall b :: b in r.buildings ==> b in r.reach.buildings)
              && exists b :: b in r.buildings && b !in r.reach.permitted
  {
    hide AsSet, Pairs, Reach.Legal;
    AsSetIs(r.buildings);
    AsSetIs(r.targets);
  }

  /** The companies everybody agrees on, and links that stay within one. */
  ghost predicate WithinCompanies(links: set<Pair>, buildings: map<nat, nat>, targets: map<nat, nat>) {
    forall p :: p in links ==>
      p.building in buildings && p.target in targets && buildings[p.building] == targets[p.target]
  }

  ghost predicate Agrees(r: Request, buildings: map<nat, nat>, targets: map<nat, nat>) {
    && r.reach.sameCompany
    && (forall b :: b in r.reach.buildings ==> b in buildings && buildings[b] == r.reach.buildings[b])
    && (forall t :: t in r.reach.targets ==> t in targets && targets[t] == r.reach.targets[t])
  }

  /** Over any run of requests on a relation that compares companies, whoever makes them, no link ever
      joins a building and a target of different companies. */
  lemma {:induction false} LinksStayWithinCompanies(t: Tables, requests: seq<Request>,
                                                    buildings: map<nat, nat>, targets: map<nat, nat>)
    requires WithinCompanies(t.links, buildings, targets)
    requires forall r :: r in requests ==> Agrees(r, buildings, targets)
    ensures WithinCompanies(Effects(t, requests).links, buildings, targets)
  {
    hide Effect, AnswerTo;
    if requests != [] {
      var rest, r := requests[..|requests| - 1], requests[|requests| - 1];
      assert r in requests;
      LinksStayWithinCompanies(t, rest, buildings, targets);
      EffectByPairs(Effects(t, rest), r);
    }
  }

  /** A link, and a cascading unlink, keep every access row's pair linked. */
  lemma EffectKeepsAccessLinked(t: Tables, r: Request)
    requires t.Linked() && (r.mode == Link || r.cascade)
    ensures Effect(t, r).Linked()
  {
    hide Product, Reach.Legal;
  }

  /** Over any run of requests on the customer relation, every access row's pair stays linked. */
  lemma {:induction false} AccessStaysLinked(t: Tables, requests: seq<Request>)
    requires t.Linked() && forall r :: r in requests ==> r.mode == Link || r.cascade
    ensures Effects(t, requests).Linked()
  {
    hide Effect, AccessIsLinked;
    if requests != [] {
      AccessStaysLinked(t, requests[..|requests| - 1]);
      EffectKeepsAccessLinked(Effects(t, requests[..|requests| - 1]), requests[|requests| - 1]);
    }
  }

  /** Without the cascade an accepted unlink keeps it exactly when there is nothing to revoke. */
  lemma UnlinkWithoutCascade(t: Tables, r: Request)
    requires t.Linked() && r.mode == Unlink && !r.cascade && r.Refusal() == None
    ensures Effect(t, r).Linked() <==> RevokeAll(t.access, r.Wanted() * t.links) == t.access
  {
    hide Product;
  }

  /** How a request leaves its own pairs, whatever it is asked again later. */
  ghost predicate Settled(t: Tables, r: Request) {
    r.Refusal() == None ==> if r.mode == Link then r.Wanted() <= t.links else r.Wanted() !! t.links
  }

  lemma {:induction false} StaysSettled(t: Tables, r: Request, between: seq<Request>)
    requires Settled(t, r)
    requires forall q :: q in between && q.Refusal() == None && q.mode != r.mode ==> q.Wanted() !! r.Wanted()
    ensures Settled(Effects(t, between), r)
  {
    hide Product, AsSet, Reach.Legal;
    if between != [] {
      assert between[|between| - 1] in between;
      StaysSettled(t, r, between[..|between| - 1]);
    }
  }

  /** Repeating a request finds nothing left to do, also after other requests, as long as none of
      them did the opposite to one of its pairs: it changes nothing and counts all N x M pairs as
      already in place. */
  lemma RepetitionAddsNothing(t: Tables, r: Request, between: seq<Request>)
    requires forall q :: q in between && q.Refusal() == None && q.mode != r.mode ==> q.Wanted() !! r.Wanted()
    ensures var later := Effects(Effect(t, r), between);
            && Effect(later, r) == later
            && AnswerTo(later, r) == match r.Refusal()
                                     case Some(why) => Rejected(why)
                                     case None => if r.mode == Link then Done(0, 0, |r.Wanted()|, 0)
                                                  else Done(0, 0, 0, |r.Wanted()|)
  {
    hide Product, Reach.Legal;
    assert Settled(Effect(t, r), r);
    StaysSettled(Effect(t, r), r, between);
    AlreadySettled(Effects(Effect(t, r), between), r);
  }

  lemma AlreadySettled(t: Tables, r: Request)
    requires Settled(t, r)
    ensures Effect(t, r) == t
    ensures r.Refusal() == None ==>
              AnswerTo(t, r) == if r.mode == Link then Done(0, 0, |r.Wanted()|, 0) else Done(0, 0, 0, |r.Wanted()|)
  {
    hide Product, Reach.Legal;
    if r.Refusal() == None {
      if r.mode == Link {
        assert t.links + r.Wanted() == t.links && r.Wanted() - t.links == {} && r.Wanted() * t.links == r.Wanted();
      } else {
        assert t.links - r.Wanted() == t.links && r.Wanted() * t.links == {} && r.Wanted() - t.links == r.Wanted();
        assert RevokeAll(t.access, {}) == t.access;
      }
    }
  }
}
