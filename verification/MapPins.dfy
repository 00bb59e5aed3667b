/**
 Grouping the map's spots into pins: walk the spots in id order, and let each one not yet taken
 gather every untaken spot near it. Nearness at a zoom level is any relation `near`.
 */
module MapPins {
  import opened Text
  import opened Wrappers

  datatype Spot = Spot(id: string, title: string, price: int, lng: real, lat: real)

  datatype Pin = Pin(key: string, lng: real, lat: real, price: Option<int>, spots: seq<Spot>)

  type Near = (Spot, Spot) -> bool

  // ---------------------------------------------------------------- sorting

  function Insert(sorted: seq<Spot>, s: Spot): seq<Spot> {
    if sorted == [] then [s]
    else if Less(s.id, sorted[0].id) then [s] + sorted
    else [sorted[0]] + Insert(sorted[1..], s)
  }

  /** A stable sort by id. */
  function SortById(spots: seq<Spot>): seq<Spot> {
    if spots == [] then [] else Insert(SortById(spots[..|spots| - 1]), spots[|spots| - 1])
  }

  ghost predicate Ascending(spots: seq<Spot>) {
    forall i, j :: 0 <= i < j < |spots| ==> Less(spots[i].id, spots[j].id)
  }

  ghost predicate DistinctIds(spots: seq<Spot>) {
    forall i, j :: 0 <= i < j < |spots| ==> spots[i].id != spots[j].id
  }

  lemma {:induction false} InsertKeeps(sorted: seq<Spot>, s: Spot)
    ensures multiset(Insert(sorted, s)) == multiset(sorted) + multiset{s}
  {
    if sorted != [] {
      InsertKeeps(sorted[1..], s);
      assert sorted == [sorted[0]] + sorted[1..];
    }
  }

  lemma {:induction false} InsertAscends(sorted: seq<Spot>, s: Spot)
    requires Ascending(sorted) && forall x | x in sorted :: x.id != s.id
    ensures Ascending(Insert(sorted, s))
  {
    if sorted != [] {
      var rest := Insert(sorted[1..], s);
      InsertAscends(sorted[1..], s);
      InsertKeeps(sorted[1..], s);
      LessTotal(s.id, sorted[0].id);
      if Less(s.id, sorted[0].id) {
        forall j | 0 <= j < |sorted| ensures Less(s.id, sorted[j].id) {
          if j > 0 {
            LessTrans(s.id, sorted[0].id, sorted[j].id);
          }
        }
      } else {
        forall j | 0 <= j < |rest| ensures Less(sorted[0].id, rest[j].id) {
          assert rest[j] in multiset(rest);
          assert rest[j] in multiset(sorted[1..]) + multiset{s};
        }
      }
    }
  }

  /** Sorting rearranges; with distinct ids the result ascends strictly. */
  lemma {:induction false} SortByIdSorts(spots: seq<Spot>)
    ensures multiset(SortById(spots)) == multiset(spots)
    ensures DistinctIds(spots) ==> Ascending(SortById(spots))
  {
    if spots != [] {
      var before, last := spots[..|spots| - 1], spots[|spots| - 1];
      assert spots == before + [last];
      SortByIdSorts(before);
      InsertKeeps(SortById(before), last);
      if DistinctIds(spots) {
        forall x | x in SortById(before) ensures x.id != last.id {
          assert x in multiset(before);
        }
        InsertAscends(SortById(before), last);
      }
    }
  }

  lemma FirstIsLowest(spots: seq<Spot>, x: Spot)
    requires Ascending(spots) && x in spots
    ensures x == spots[0] || Less(spots[0].id, x.id)
  {
  }

  lemma TailCounts(spots: seq<Spot>)
    requires spots != []
    ensures multiset(spots[1..]) == multiset(spots) - multiset{spots[0]}
  {
    assert spots == [spots[0]] + spots[1..];
  }

  lemma SameLowest(a: seq<Spot>, b: seq<Spot>)
    requires Ascending(a) && Ascending(b) && a != [] && a[0] in b && b != [] && b[0] in a
    ensures a[0] == b[0]
  {
    FirstIsLowest(b, a[0]);
    FirstIsLowest(a, b[0]);
    LessTotal(a[0].id, b[0].id);
  }

  /** There is one way to put distinct ids in order. */
  lemma {:induction false} AscendingUnique(a: seq<Spot>, b: seq<Spot>)
    requires Ascending(a) && Ascending(b) && multiset(a) == multiset(b)
    ensures a == b
  {
    assert |a| == |multiset(a)| == |multiset(b)| == |b|;
    if a != [] {
      assert a[0] in multiset(b) && b[0] in multiset(a);
      SameLowest(a, b);
      TailCounts(a);
      TailCounts(b);
      AscendingUnique(a[1..], b[1..]);
      assert a == [a[0]] + a[1..] && b == [b[0]] + b[1..];
    }
  }

  // ---------------------------------------------------------------- grouping

  /** The spots of `rest` near the leader, in order. */
  function Gather(near: Near, leader: Spot, rest: seq<Spot>): seq<Spot> {
    if rest == [] then []
    else if near(leader, rest[|rest| - 1]) then Gather(near, leader, rest[..|rest| - 1]) + [rest[|rest| - 1]]
    else Gather(near, leader, rest[..|rest| - 1])
  }

  function Leave(near: Near, leader: Spot, rest: seq<Spot>): (left: seq<Spot>)
    ensures |left| <= |rest|
  {
    if rest == [] then []
    else if near(leader, rest[|rest| - 1]) then Leave(near, leader, rest[..|rest| - 1])
    else Leave(near, leader, rest[..|rest| - 1]) + [rest[|rest| - 1]]
  }

  /** The groups of spots already in order: the first leads, gathers, and the rest go on without them. */
  function Groups(near: Near, spots: seq<Spot>): seq<seq<Spot>>
    decreases |spots|
  {
    if spots == [] then []
    else [[spots[0]] + Gather(near, spots[0], spots[1..])] + Groups(near, Leave(near, spots[0], spots[1..]))
  }

  lemma {:induction false} GatherIs(near: Near, leader: Spot, rest: seq<Spot>, x: Spot)
    ensures x in Gather(near, leader, rest) <==> x in rest && near(leader, x)
    ensures x in Leave(near, leader, rest) <==> x in rest && !near(leader, x)
  {
    if rest != [] {
      GatherIs(near, leader, rest[..|rest| - 1], x);
      assert rest == rest[..|rest| - 1] + [rest[|rest| - 1]];
    }
  }

  lemma {:induction false} GatherSplits(near: Near, leader: Spot, rest: seq<Spot>)
    ensures multiset(Gather(near, leader, rest)) + multiset(Leave(near, leader, rest)) == multiset(rest)
  {
    if rest != [] {
      GatherSplits(near, leader, rest[..|rest| - 1]);
      assert rest == rest[..|rest| - 1] + [rest[|rest| - 1]];
    }
  }

  lemma {:induction false} GatherAscends(near: Near, leader: Spot, rest: seq<Spot>)
    requires Ascending(rest)
    ensures Ascending(Gather(near, leader, rest)) && Ascending(Leave(near, leader, rest))
  {
    if rest != [] {
      var n := |rest| - 1;
      GatherAscends(near, leader, rest[..n]);
      forall x | x in Gather(near, leader, rest[..n]) || x in Leave(near, leader, rest[..n]) ensures Less(x.id, rest[n].id) {
        GatherIs(near, leader, rest[..n], x);
      }
      AscendingSnoc(Gather(near, leader, rest[..n]), rest[n]);
      AscendingSnoc(Leave(near, leader, rest[..n]), rest[n]);
    }
  }

  lemma AscendingSnoc(spots: seq<Spot>, x: Spot)
    requires Ascending(spots) && forall s | s in spots :: Less(s.id, x.id)
    ensures Ascending(spots + [x])
  {
  }

  function Flatten(groups: seq<seq<Spot>>): seq<Spot> {
    if groups == [] then [] else groups[0] + Flatten(groups[1..])
  }

  /** Every spot lands in one group, once. */
  lemma {:induction false} GroupsPartition(near: Near, spots: seq<Spot>)
    ensures multiset(Flatten(Groups(near, spots))) == multiset(spots)
    decreases |spots|
  {
    if spots != [] {
      GroupsPartition(near, Leave(near, spots[0], spots[1..]));
      GatherSplits(near, spots[0], spots[1..]);
      FlattenFirst(near, spots);
    }
  }

  lemma FlattenFirst(near: Near, spots: seq<Spot>)
    requires spots != []
    ensures multiset(spots) == multiset{spots[0]} + multiset(spots[1..])
    ensures multiset(Flatten(Groups(near, spots))) ==
      multiset{spots[0]} + multiset(Gather(near, spots[0], spots[1..])) +
      multiset(Flatten(Groups(near, Leave(near, spots[0], spots[1..]))))
  {
    var leader, rest := spots[0], spots[1..];
    FlattenCons([leader] + Gather(near, leader, rest), Groups(near, Leave(near, leader, rest)));
    ConsCounts(leader, Gather(near, leader, rest));
    ConsCounts(leader, rest);
    assert spots == [leader] + rest;
  }

  lemma ConsCounts(x: Spot, rest: seq<Spot>)
    ensures multiset([x] + rest) == multiset{x} + multiset(rest)
  {
  }

  lemma FlattenCons(group: seq<Spot>, groups: seq<seq<Spot>>)
    ensures multiset(Flatten([group] + groups)) == multiset(group) + multiset(Flatten(groups))
  {
    assert ([group] + groups)[1..] == groups;
  }

  /**
   What the groups look like from outside: members are in id order behind their leader and near
   it; no two leaders are near each other; and no leader of an earlier group, which has a lower id,
   is near a member of a later one. So a member's leader is the lowest-id leader near it.
   */
  ghost predicate WellGrouped(near: Near, groups: seq<seq<Spot>>) {
    && (forall g :: 0 <= g < |groups| ==> groups[g] != [] && Ascending(groups[g]))
    && (forall g, k :: 0 <= g < |groups| && 1 <= k < |groups[g]| ==> near(groups[g][0], groups[g][k]))
    && (forall g, h :: 0 <= g < h < |groups| ==> Less(groups[g][0].id, groups[h][0].id))
    && (forall g, h, k :: 0 <= g < h < |groups| && 0 <= k < |groups[h]| ==> !near(groups[g][0], groups[h][k]))
  }

  lemma {:induction false} MembersOf(groups: seq<seq<Spot>>, x: Spot)
    ensures x in Flatten(groups) <==> exists g :: 0 <= g < |groups| && x in groups[g]
  {
    if groups != [] {
      MembersOf(groups[1..], x);
      if x in Flatten(groups[1..]) {
        var g :| 0 <= g < |groups[1..]| && x in groups[1..][g];
        assert x in groups[g + 1];
      }
      if exists g :: 0 <= g < |groups| && x in groups[g] {
        var g :| 0 <= g < |groups| && x in groups[g];
        if g > 0 {
          assert x in groups[1..][g - 1];
        }
      }
    }
  }

  /** Putting a first group in front of well-grouped ones. */
  lemma WellGroupedCons(near: Near, group: seq<Spot>, groups: seq<seq<Spot>>)
    requires WellGrouped(near, groups) && group != [] && Ascending(group)
    requires forall k :: 1 <= k < |group| ==> near(group[0], group[k])
    requires forall h, k :: 0 <= h < |groups| && 0 <= k < |groups[h]| ==>
      !near(group[0], groups[h][k]) && Less(group[0].id, groups[h][k].id)
    ensures WellGrouped(near, [group] + groups)
  {
    var all := [group] + groups;
    assert forall g :: 0 < g < |all| ==> all[g] == groups[g - 1];
    assert all[0] == group;
  }

  lemma {:induction false} GroupsAreWell(near: Near, spots: seq<Spot>)
    requires Ascending(spots)
    ensures WellGrouped(near, Groups(near, spots))
    decreases |spots|
  {
    if spots != [] {
      var leader, rest := spots[0], spots[1..];
      var gathered, left := Gather(near, leader, rest), Leave(near, leader, rest);
      var groups := Groups(near, left);
      GatherAscends(near, leader, rest);
      GroupsAreWell(near, left);
      forall h, k | 0 <= h < |groups| && 0 <= k < |groups[h]|
        ensures !near(leader, groups[h][k]) && Less(leader.id, groups[h][k].id)
      {
        MemberLeft(near, left, h, k);
        GatherIs(near, leader, rest, groups[h][k]);
      }
      forall x | x in gathered ensures near(leader, x) && Less(leader.id, x.id) {
        GatherIs(near, leader, rest, x);
      }
      WellGroupedCons(near, [leader] + gathered, groups);
    }
  }

  lemma MemberLeft(near: Near, spots: seq<Spot>, h: nat, k: nat)
    requires h < |Groups(near, spots)| && k < |Groups(near, spots)[h]|
    ensures Groups(near, spots)[h][k] in spots
  {
    var x := Groups(near, spots)[h][k];
    MembersOf(Groups(near, spots), x);
    GroupsPartition(near, spots);
    assert x in multiset(Flatten(Groups(near, spots)));
  }

  /** The leader of group `h` is the spot, or near it. */
  ghost predicate Claims(near: Near, groups: seq<seq<Spot>>, h: nat, x: Spot)
    requires h < |groups| && groups[h] != []
  {
    groups[h][0] == x || near(groups[h][0], x)
  }

  /** A spot is in the group of the first, so lowest-id, leader that is the spot or near it, and in no other. */
  lemma MemberIff(near: Near, spots: seq<Spot>, x: Spot, g: nat)
    requires Ascending(spots) && x in spots && g < |Groups(near, spots)|
    ensures WellGrouped(near, Groups(near, spots))
    ensures x in Groups(near, spots)[g] <==>
      Claims(near, Groups(near, spots), g, x) && forall h: nat | h < g :: !Claims(near, Groups(near, spots), h, x)
  {
    GroupsAreWell(near, spots);
    var home := HomeOf(near, spots, x);
    InHomeIff(near, Groups(near, spots), home, x, g);
  }

  lemma HomeOf(near: Near, spots: seq<Spot>, x: Spot) returns (home: nat)
    requires x in spots
    ensures home < |Groups(near, spots)| && x in Groups(near, spots)[home]
  {
    var groups := Groups(near, spots);
    GroupsPartition(near, spots);
    assert x in multiset(Flatten(groups));
    MembersOf(groups, x);
    home :| home < |groups| && x in groups[home];
  }

  lemma InHomeIff(near: Near, groups: seq<seq<Spot>>, home: nat, x: Spot, g: nat)
    requires WellGrouped(near, groups) && home < |groups| && x in groups[home] && g < |groups|
    ensures x in groups[g] <==> Claims(near, groups, g, x) && forall h: nat | h < g :: !Claims(near, groups, h, x)
  {
    HomeClaims(near, groups, home, x);
    if x in groups[g] {
      HomeClaims(near, groups, g, x);
    }
  }

  lemma HomeClaims(near: Near, groups: seq<seq<Spot>>, home: nat, x: Spot)
    requires WellGrouped(near, groups) && home < |groups| && x in groups[home]
    ensures Claims(near, groups, home, x) && forall h: nat | h < home :: !Claims(near, groups, h, x)
  {
    var k :| 0 <= k < |groups[home]| && groups[home][k] == x;
    forall h: nat | h < home ensures !Claims(near, groups, h, x) {
      if k > 0 {
        LessTrans(groups[h][0].id, groups[home][0].id, x.id);
      }
      LessTotal(groups[h][0].id, x.id);
    }
  }

  /** No two leaders are near each other, whichever way round nearness is asked. */
  lemma LeadersApart(near: Near, spots: seq<Spot>, g: nat, h: nat)
    requires Ascending(spots) && g < |Groups(near, spots)| && h < |Groups(near, spots)| && g != h
    requires forall a, b :: near(a, b) == near(b, a)
    ensures Groups(near, spots)[g] != [] && Groups(near, spots)[h] != []
    ensures !near(Groups(near, spots)[g][0], Groups(near, spots)[h][0])
  {
    GroupsAreWell(near, spots);
    var groups := Groups(near, spots);
    if g < h {
      assert !near(groups[g][0], groups[h][0]);
    } else {
      assert !near(groups[h][0], groups[g][0]);
    }
  }

  /** The groups do not depend on the order the spots arrived in. */
  lemma OrderDoesNotMatter(near: Near, a: seq<Spot>, b: seq<Spot>)
    requires DistinctIds(a) && DistinctIds(b) && multiset(a) == multiset(b)
    ensures Groups(near, SortById(a)) == Groups(near, SortById(b))
  {
    SortByIdSorts(a);
    SortByIdSorts(b);
    AscendingUnique(SortById(a), SortById(b));
  }

  // ---------------------------------------------------------------- pins

  function Ids(group: seq<Spot>): seq<string> {
    seq(|group|, i requires 0 <= i < |group| => group[i].id)
  }

  /** Keyed by who is in it. */
  function KeyOf(group: seq<Spot>): string {
    if |group| == 1 then "s" + group[0].id else "c" + Join(Ids(group), ',')
  }

  function Sum(group: seq<Spot>, pick: Spot -> real): real {
    if group == [] then 0.0 else Sum(group[..|group| - 1], pick) + pick(group[|group| - 1])
  }

  /** No group is empty; an empty one would have no mean. */
  function Mean(group: seq<Spot>, pick: Spot -> real): real {
    if group == [] then 0.0 else Sum(group, pick) / |group| as real
  }

  function Lng(s: Spot): real {
    s.lng
  }

  function Lat(s: Spot): real {
    s.lat
  }

  function PinOf(group: seq<Spot>): Pin {
    Pin(KeyOf(group), Mean(group, Lng), Mean(group, Lat),
        if |group| == 1 then Some(group[0].price) else None, group)
  }

  lemma {:induction false} SumBounds(group: seq<Spot>, pick: Spot -> real, lo: real, hi: real)
    requires forall s | s in group :: lo <= pick(s) <= hi
    ensures lo * |group| as real <= Sum(group, pick) <= hi * |group| as real
  {
    if group != [] {
      var n := |group| - 1;
      SumBounds(group[..n], pick, lo, hi);
      assert lo * |group| as real == lo * n as real + lo;
      assert hi * |group| as real == hi * n as real + hi;
    }
  }

  /** A pin stands within the bounds its spots lie in. */
  lemma MeanIsAmong(group: seq<Spot>, pick: Spot -> real, lo: real, hi: real)
    requires group != [] && forall s | s in group :: lo <= pick(s) <= hi
    ensures lo <= Mean(group, pick) <= hi
  {
    SumBounds(group, pick, lo, hi);
    var n, sum := |group| as real, Sum(group, pick);
    assert n > 0.0;
    assert (sum / n) * n == sum;
    assert lo * n <= (sum / n) * n <= hi * n;
  }

  /** Two keys are equal when they name one spot, or two lists of ids that join to one string. */
  lemma KeysEqual(a: seq<Spot>, b: seq<Spot>)
    requires a != [] && b != []
    ensures KeyOf(a) == KeyOf(b) <==>
      if |a| == 1 || |b| == 1 then |a| == |b| && a[0].id == b[0].id else Join(Ids(a), ',') == Join(Ids(b), ',')
  {
    if KeyOf(a) == KeyOf(b) {
      assert KeyOf(a)[0] == KeyOf(b)[0];
      assert KeyOf(a)[1..] == KeyOf(b)[1..];
      assert |a| > 1 ==> KeyOf(a)[1..] == Join(Ids(a), ',');
      assert |b| > 1 ==> KeyOf(b)[1..] == Join(Ids(b), ',');
      assert |a| == 1 ==> KeyOf(a)[1..] == a[0].id;
      assert |b| == 1 ==> KeyOf(b)[1..] == b[0].id;
    }
  }

  /** A map keeps a key where it first was, and a second pin under it takes its place. */
  function Put(pins: seq<Pin>, pin: Pin): seq<Pin> {
    if pins == [] then [pin]
    else if pins[0].key == pin.key then [pin] + pins[1..]
    else [pins[0]] + Put(pins[1..], pin)
  }

  function Pinned(groups: seq<seq<Spot>>): seq<Pin> {
    if groups == [] then [] else Put(Pinned(groups[..|groups| - 1]), PinOf(groups[|groups| - 1]))
  }

  lemma {:induction false} PutNew(pins: seq<Pin>, pin: Pin)
    requires forall i :: 0 <= i < |pins| ==> pins[i].key != pin.key
    ensures Put(pins, pin) == pins + [pin]
  {
    if pins != [] {
      PutNew(pins[1..], pin);
      assert pins == [pins[0]] + pins[1..];
    }
  }

  function Keys(pins: seq<Pin>): (keys: seq<string>)
    ensures |keys| == |pins|
  {
    seq(|pins|, i requires 0 <= i < |pins| => pins[i].key)
  }

  lemma KeysCons(first: Pin, rest: seq<Pin>)
    ensures Keys([first] + rest) == [first.key] + Keys(rest)
  {
  }

  lemma {:induction false} PutKeys(pins: seq<Pin>, pin: Pin)
    ensures Keys(Put(pins, pin)) == if pin.key in Keys(pins) then Keys(pins) else Keys(pins) + [pin.key]
  {
    if pins == [] {
      KeysCons(pin, []);
    } else {
      var first, rest := pins[0], pins[1..];
      assert pins == [first] + rest;
      KeysCons(first, rest);
      if first.key == pin.key {
        KeysCons(pin, rest);
      } else {
        PutKeys(rest, pin);
        KeysCons(first, Put(rest, pin));
      }
    }
  }

  ghost predicate Keyed(groups: seq<seq<Spot>>, key: string) {
    exists g :: 0 <= g < |groups| && KeyOf(groups[g]) == key
  }

  ghost predicate DistinctKeys(groups: seq<seq<Spot>>) {
    forall g, h :: 0 <= g < h < |groups| ==> KeyOf(groups[g]) != KeyOf(groups[h])
  }

  lemma KeyedSnoc(groups: seq<seq<Spot>>, last: seq<Spot>, key: string)
    ensures Keyed(groups + [last], key) <==> Keyed(groups, key) || KeyOf(last) == key
  {
    var all := groups + [last];
    assert all[|groups|] == last && forall g :: 0 <= g < |groups| ==> all[g] == groups[g];
  }

  lemma {:induction false} PinnedKeys(groups: seq<seq<Spot>>, key: string)
    ensures key in Keys(Pinned(groups)) <==> Keyed(groups, key)
  {
    if groups != [] {
      var front, last := groups[..|groups| - 1], groups[|groups| - 1];
      assert groups == front + [last];
      PinnedKeys(front, key);
      PinnedKeys(front, KeyOf(last));
      PutKeys(Pinned(front), PinOf(last));
      KeyedSnoc(front, last, key);
    }
  }

  lemma DistinctKeysSnoc(groups: seq<seq<Spot>>, last: seq<Spot>)
    ensures DistinctKeys(groups + [last]) <==> DistinctKeys(groups) && !Keyed(groups, KeyOf(last))
  {
    var all := groups + [last];
    assert all[|groups|] == last && forall g :: 0 <= g < |groups| ==> all[g] == groups[g];
  }

  /** Every group keeps its pin if and only if no two keys are equal; otherwise pins are lost. */
  lemma {:induction false} PinPerGroupIff(groups: seq<seq<Spot>>)
    ensures |Pinned(groups)| <= |groups|
    ensures |Pinned(groups)| == |groups| <==> DistinctKeys(groups)
    ensures DistinctKeys(groups) ==> forall g :: 0 <= g < |groups| ==> Pinned(groups)[g] == PinOf(groups[g])
  {
    if groups != [] {
      var front, last := groups[..|groups| - 1], groups[|groups| - 1];
      assert groups == front + [last];
      PinPerGroupIff(front);
      PinnedKeys(front, KeyOf(last));
      PutKeys(Pinned(front), PinOf(last));
      DistinctKeysSnoc(front, last);
      if !Keyed(front, KeyOf(last)) {
        forall i | 0 <= i < |Pinned(front)| ensures Pinned(front)[i].key != KeyOf(last) {
          assert Keys(Pinned(front))[i] in Keys(Pinned(front));
        }
        PutNew(Pinned(front), PinOf(last));
      }
      assert |Keys(Pinned(groups))| == |Pinned(groups)|;
    }
  }

  // ---------------------------------------------------------------- when keys clash

  /** Some of the spots, in id order. */
  ghost predicate Selection(spots: seq<Spot>, chosen: seq<Spot>) {
    Ascending(chosen) && forall x | x in chosen :: x in spots
  }

  /** Two selections of two or more spots, none in both, whose ids join to one string. */
  ghost predicate Clash(spots: seq<Spot>, a: seq<Spot>, b: seq<Spot>) {
    && Selection(spots, a) && Selection(spots, b) && |a| >= 2 && |b| >= 2
    && (forall x | x in a :: x !in b)
    && Join(Ids(a), ',') == Join(Ids(b), ',')
  }

  ghost predicate NoClash(spots: seq<Spot>) {
    forall a, b :: !Clash(spots, a, b)
  }

  /** A group is a selection of the spots, and no spot is in two groups. */
  lemma GroupSelects(near: Near, spots: seq<Spot>, g: nat)
    requires Ascending(spots) && g < |Groups(near, spots)|
    ensures Selection(spots, Groups(near, spots)[g]) && Groups(near, spots)[g] != []
  {
    GroupsAreWell(near, spots);
    forall x | x in Groups(near, spots)[g] ensures x in spots {
      var k: nat :| k < |Groups(near, spots)[g]| && Groups(near, spots)[g][k] == x;
      MemberLeft(near, spots, g, k);
    }
  }

  lemma GroupsDisjoint(near: Near, spots: seq<Spot>, g: nat, h: nat, x: Spot)
    requires Ascending(spots) && g < h < |Groups(near, spots)| && x in Groups(near, spots)[g]
    ensures x !in Groups(near, spots)[h]
  {
    GroupsAreWell(near, spots);
    HomeClaims(near, Groups(near, spots), g, x);
    if x in Groups(near, spots)[h] {
      HomeClaims(near, Groups(near, spots), h, x);
    }
  }

  /** Groups with one key are such a pair. */
  lemma SameKeyClashes(near: Near, spots: seq<Spot>, g: nat, h: nat)
    requires Ascending(spots) && g < h < |Groups(near, spots)|
    requires KeyOf(Groups(near, spots)[g]) == KeyOf(Groups(near, spots)[h])
    ensures Clash(spots, Groups(near, spots)[g], Groups(near, spots)[h])
  {
    var a, b := Groups(near, spots)[g], Groups(near, spots)[h];
    GroupsAreWell(near, spots);
    GroupSelects(near, spots, g);
    GroupSelects(near, spots, h);
    KeysEqual(a, b);
    LessTotal(a[0].id, b[0].id);
    forall x | x in a ensures x !in b {
      GroupsDisjoint(near, spots, g, h, x);
    }
  }

  const RADIUS_PX := 50.0

  datatype Pixel = Pixel(x: real, y: real)

  function Squared(p: Pixel, q: Pixel): real {
    (p.x - q.x) * (p.x - q.x) + (p.y - q.y) * (p.y - q.y)
  }

  /** The page's own nearness, for spots that stand at the given places of the screen. */
  function Within(at: Spot -> Pixel): Near {
    (x, y) => Squared(at(x), at(y)) <= RADIUS_PX * RADIUS_PX
  }

  /** Fifty pixels apart is near, in any direction, and a pixel more is not. */
  lemma FiftyPixels(at: Spot -> Pixel, x: Spot, y: Spot)
    requires at(x) == Pixel(0.0, 0.0)
    ensures at(y) == Pixel(50.0, 0.0) || at(y) == Pixel(0.0, 50.0) || at(y) == Pixel(30.0, 40.0) ==> Within(at)(x, y)
    ensures at(y) == Pixel(51.0, 0.0) || at(y) == Pixel(0.0, 51.0) || at(y) == Pixel(31.0, 40.0) ==> !Within(at)(x, y)
  {
  }

  /** The one selection in one place, the other in another, everything else in a third. */
  function Corner(a: seq<Spot>, b: seq<Spot>, x: Spot): Pixel {
    if x in a then Pixel(0.0, 0.0) else if x in b then Pixel(100.0, 0.0) else Pixel(0.0, 100.0)
  }

  function Corners(a: seq<Spot>, b: seq<Spot>): Spot -> Pixel {
    x => Corner(a, b, x)
  }

  lemma CornersNear(a: seq<Spot>, b: seq<Spot>, x: Spot, y: Spot)
    requires forall x | x in a :: x !in b
    ensures Within(Corners(a, b))(x, y) <==> (x in a <==> y in a) && (x in b <==> y in b)
  {
    assert Within(Corners(a, b))(x, y) <==> Squared(Corner(a, b, x), Corner(a, b, y)) <= RADIUS_PX * RADIUS_PX;
  }

  ghost predicate Symmetric(near: Near) {
    forall x, y :: near(x, y) == near(y, x)
  }

  lemma WithinIsSymmetric(at: Spot -> Pixel)
    ensures Symmetric(Within(at))
  {
    forall x, y ensures Within(at)(x, y) == Within(at)(y, x) {
      SquaredSwaps(at(x), at(y));
    }
  }

  lemma SquaredSwaps(p: Pixel, q: Pixel)
    ensures Squared(p, q) == Squared(q, p)
  {
    Square(p.x - q.x);
    Square(p.y - q.y);
  }

  lemma Square(d: real)
    ensures d * d == (-d) * (-d)
  {
  }

  lemma {:induction false} AscendingSameSet(a: seq<Spot>, b: seq<Spot>)
    requires Ascending(a) && Ascending(b) && forall x :: x in a <==> x in b
    ensures a == b
  {
    assert a != [] ==> a[0] in a;
    assert b != [] ==> b[0] in b;
    if a != [] {
      SameLowest(a, b);
      forall x ensures x in a[1..] <==> x in b[1..] {
        InTail(a, x);
        InTail(b, x);
      }
      AscendingSameSet(a[1..], b[1..]);
      assert a == [a[0]] + a[1..] && b == [b[0]] + b[1..];
    }
  }

  lemma InTail(a: seq<Spot>, x: Spot)
    requires Ascending(a) && a != []
    ensures x in a[1..] <==> x in a && x != a[0]
  {
    assert a == [a[0]] + a[1..];
    if x in a[1..] {
      var i :| 0 <= i < |a[1..]| && a[1..][i] == x;
      assert Less(a[0].id, a[i + 1].id);
      LessTotal(a[0].id, x.id);
    }
  }

  /** A selection that is near only within itself is a group. */
  lemma SelectionIsGroup(spots: seq<Spot>, a: seq<Spot>, near: Near) returns (g: nat)
    requires Ascending(spots) && Selection(spots, a) && a != []
    requires forall x, y :: x in a || y in a ==> (near(x, y) <==> x in a && y in a)
    ensures g < |Groups(near, spots)| && Groups(near, spots)[g] == a
  {
    var groups := Groups(near, spots);
    GroupsAreWell(near, spots);
    GroupsPartition(near, spots);
    assert a[0] in spots;
    assert a[0] in multiset(Flatten(groups));
    MembersOf(groups, a[0]);
    g :| g < |groups| && a[0] in groups[g];
    LedByFirst(near, groups, g, a);
    forall x ensures x in groups[g] <==> x in a {
      if x in a {
        FirstClaims(near, spots, groups, g, a, x);
      } else if x in groups[g] {
        HomeClaims(near, groups, g, x);
      }
    }
    AscendingSameSet(groups[g], a);
  }

  lemma LedByFirst(near: Near, groups: seq<seq<Spot>>, g: nat, a: seq<Spot>)
    requires WellGrouped(near, groups) && g < |groups| && Ascending(a) && a != [] && a[0] in groups[g]
    requires forall x, y :: x in a || y in a ==> (near(x, y) <==> x in a && y in a)
    ensures groups[g][0] == a[0]
  {
    HomeClaims(near, groups, g, a[0]);
    assert groups[g][0] in a;
    FirstIsLowest(a, groups[g][0]);
    FirstIsLowest(groups[g], a[0]);
    LessTotal(a[0].id, groups[g][0].id);
  }

  lemma FirstClaims(near: Near, spots: seq<Spot>, groups: seq<seq<Spot>>, g: nat, a: seq<Spot>, x: Spot)
    requires Ascending(spots) && groups == Groups(near, spots) && WellGrouped(near, groups) && g < |groups|
    requires Selection(spots, a) && x in a && groups[g][0] == a[0]
    requires forall x, y :: x in a || y in a ==> (near(x, y) <==> x in a && y in a)
    ensures x in groups[g]
  {
    MemberIff(near, spots, x, g);
    NoneBelow(a);
    forall h: nat | h < g ensures !Claims(near, groups, h, x) {
      assert Less(groups[h][0].id, groups[g][0].id);
    }
  }

  lemma NoneBelow(a: seq<Spot>)
    requires Ascending(a)
    ensures forall x | x in a :: !Less(x.id, a[0].id)
  {
    forall x | x in a ensures !Less(x.id, a[0].id) {
      FirstIsLowest(a, x);
      LessTotal(a[0].id, x.id);
    }
  }

  /** A clash costs a pin: with the two selections in two places of the screen, by the page's own
      nearness, which is symmetric. */
  lemma ClashLosesAPin(spots: seq<Spot>, a: seq<Spot>, b: seq<Spot>)
    requires Ascending(spots) && Clash(spots, a, b)
    ensures var near := Within(Corners(a, b));
      Symmetric(near) && |Pinned(Groups(near, spots))| < |Groups(near, spots)|
  {
    var near := Within(Corners(a, b));
    WithinIsSymmetric(Corners(a, b));
    forall x, y ensures near(x, y) <==> (x in a <==> y in a) && (x in b <==> y in b) {
      CornersNear(a, b, x, y);
    }
    LosesAPin(spots, a, b, near);
  }

  lemma LosesAPin(spots: seq<Spot>, a: seq<Spot>, b: seq<Spot>, near: Near)
    requires Ascending(spots) && Clash(spots, a, b)
    requires forall x, y :: near(x, y) <==> (x in a <==> y in a) && (x in b <==> y in b)
    ensures |Pinned(Groups(near, spots))| < |Groups(near, spots)|
  {
    var groups := Groups(near, spots);
    var g := SelectionIsGroup(spots, a, near);
    var h := SelectionIsGroup(spots, b, near);
    KeysEqual(a, b);
    assert a[0] in a && a[0] !in b;
    PinPerGroupIff(groups);
    assert KeyOf(groups[g]) == KeyOf(groups[h]) && g != h;
  }

  ghost predicate KeepsPins(near: Near, spots: seq<Spot>) {
    |Pinned(Groups(near, spots))| == |Groups(near, spots)|
  }

  /**
   No pin is lost, whatever is near what, if and only if no two disjoint selections of two or more
   spots, each in id order, have ids that join to one string. That is also when none is lost wherever
   on the screen the spots stand, by the page's distance test.
   */
  lemma NoPinLostIff(spots: seq<Spot>)
    requires DistinctIds(spots)
    ensures (forall near: Near :: KeepsPins(near, SortById(spots))) <==> NoClash(SortById(spots))
    ensures (forall near: Near | Symmetric(near) :: KeepsPins(near, SortById(spots))) <==> NoClash(SortById(spots))
    ensures (forall at: Spot -> Pixel :: KeepsPins(Within(at), SortById(spots))) <==> NoClash(SortById(spots))
  {
    var sorted := SortById(spots);
    SortByIdSorts(spots);
    if NoClash(sorted) {
      forall near: Near ensures KeepsPins(near, sorted) {
        KeysDiffer(near, sorted);
      }
    } else {
      var a, b :| Clash(sorted, a, b);
      ClashLosesAPin(sorted, a, b);
      assert Symmetric(Within(Corners(a, b))) && !KeepsPins(Within(Corners(a, b)), sorted);
    }
  }

  lemma KeysDiffer(near: Near, sorted: seq<Spot>)
    requires Ascending(sorted) && NoClash(sorted)
    ensures DistinctKeys(Groups(near, sorted)) && |Pinned(Groups(near, sorted))| == |Groups(near, sorted)|
  {
    var groups := Groups(near, sorted);
    forall g: nat, h: nat | g < h < |groups| ensures KeyOf(groups[g]) != KeyOf(groups[h]) {
      if KeyOf(groups[g]) == KeyOf(groups[h]) {
        SameKeyClashes(near, sorted, g, h);
      }
    }
    PinPerGroupIff(groups);
  }

  /** Spots of which at most one has a comma in its id, as all have whose ids are UUIDs. */
  predicate AtMostOneComma(spots: seq<Spot>) {
    forall i, j :: 0 <= i < j < |spots| ==> ',' !in spots[i].id || ',' !in spots[j].id
  }

  lemma {:induction false} IdsSplit(spots: seq<Spot>, y: Spot)
    requires y in spots && ',' !in y.id
    ensures y.id in SplitEach(Ids(spots), ',')
  {
    assert Ids(spots)[0] == spots[0].id && Ids(spots)[1..] == Ids(spots[1..]);
    if spots[0] == y {
      assert Split(y.id, ',') == [y.id];
    } else {
      assert spots == [spots[0]] + spots[1..];
      IdsSplit(spots[1..], y);
    }
  }

  /** A spot without a comma in the one selection is named by the other, if that has no comma at all. */
  lemma PlainClashes(a: seq<Spot>, b: seq<Spot>, y: Spot) returns (z: Spot)
    requires a != [] && b != [] && Join(Ids(a), ',') == Join(Ids(b), ',')
    requires y in a && ',' !in y.id && forall x | x in b :: ',' !in x.id
    ensures z in b && z.id == y.id
  {
    IdsSplit(a, y);
    SplitJoinEach(Ids(a), ',');
    SplitJoin(Ids(b), ',');
    var i :| 0 <= i < |Ids(b)| && Ids(b)[i] == y.id;
    z := b[i];
  }

  lemma OneCommaNoClash(spots: seq<Spot>, a: seq<Spot>, b: seq<Spot>, y: Spot)
    requires Ascending(spots) && Selection(spots, a) && Selection(spots, b) && y in a
    requires forall x | x in a :: x !in b
    requires ',' !in y.id && (forall x | x in b :: ',' !in x.id) && a != [] && b != []
    ensures Join(Ids(a), ',') != Join(Ids(b), ',')
  {
    if Join(Ids(a), ',') == Join(Ids(b), ',') {
      var z := PlainClashes(a, b, y);
      SameIdSame(spots, y, z);
    }
  }

  lemma SameIdSame(spots: seq<Spot>, y: Spot, z: Spot)
    requires Ascending(spots) && y in spots && z in spots && y.id == z.id
    ensures y == z
  {
    var i :| 0 <= i < |spots| && spots[i] == y;
    var j :| 0 <= j < |spots| && spots[j] == z;
    LessTotal(y.id, z.id);
  }

  lemma PlainOne(spots: seq<Spot>, a: seq<Spot>) returns (y: Spot)
    requires Ascending(spots) && AtMostOneComma(spots) && Selection(spots, a) && |a| >= 2
    ensures y in a && ',' !in y.id
  {
    if ',' in a[0].id {
      y := a[1];
      LessTotal(a[0].id, a[1].id);
      TwoCommas(spots, a[0], a[1]);
    } else {
      y := a[0];
    }
  }

  lemma TwoCommas(spots: seq<Spot>, x: Spot, y: Spot)
    requires AtMostOneComma(spots) && x in spots && y in spots && x.id != y.id
    ensures ',' !in x.id || ',' !in y.id
  {
    var i :| 0 <= i < |spots| && spots[i] == x;
    var j :| 0 <= j < |spots| && spots[j] == y;
  }

  /** With at most one comma there is no clash. */
  lemma AtMostOneIsEnough(spots: seq<Spot>)
    requires Ascending(spots) && AtMostOneComma(spots)
    ensures NoClash(spots)
  {
    forall a: seq<Spot>, b: seq<Spot> ensures !Clash(spots, a, b) {
      if Clash(spots, a, b) {
        if c: Spot :| c in a && ',' in c.id {
          forall x | x in b ensures ',' !in x.id {
            DisjointIds(spots, a, b, c, x);
            TwoCommas(spots, c, x);
          }
          var y := PlainOne(spots, a);
          OneCommaNoClash(spots, a, b, y);
        } else {
          var y := PlainOne(spots, b);
          OneCommaNoClash(spots, b, a, y);
        }
      }
    }
  }

  lemma DisjointIds(spots: seq<Spot>, a: seq<Spot>, b: seq<Spot>, c: Spot, x: Spot)
    requires Ascending(spots) && Selection(spots, a) && Selection(spots, b) && (forall x | x in a :: x !in b)
    requires c in a && x in b
    ensures c.id != x.id
  {
    if c.id == x.id {
      SameIdSame(spots, c, x);
    }
  }

  /**
   The pins of spots with distinct ids. The groups partition the spots and are well grouped; and every
   group has its pin, in group order, as long as no selections clash, so in particular when at most
   one id has a comma in it.
   */
  lemma PinsPartition(near: Near, spots: seq<Spot>)
    requires DistinctIds(spots)
    ensures WellGrouped(near, Groups(near, SortById(spots)))
    ensures multiset(Flatten(Groups(near, SortById(spots)))) == multiset(spots)
    ensures AtMostOneComma(spots) ==> NoClash(SortById(spots))
    ensures NoClash(SortById(spots)) ==> OnePinEach(Groups(near, SortById(spots)))
  {
    var sorted := SortById(spots);
    SortByIdSorts(spots);
    GroupsAreWell(near, sorted);
    GroupsPartition(near, sorted);
    if AtMostOneComma(spots) {
      CommasSorted(spots, sorted);
      AtMostOneIsEnough(sorted);
    }
    if NoClash(sorted) {
      KeysDiffer(near, sorted);
      PinPerGroupIff(Groups(near, sorted));
    }
  }

  ghost predicate OnePinEach(groups: seq<seq<Spot>>) {
    |Pinned(groups)| == |groups| && forall g :: 0 <= g < |groups| ==> Pinned(groups)[g] == PinOf(groups[g])
  }

  lemma CommasSorted(spots: seq<Spot>, sorted: seq<Spot>)
    requires AtMostOneComma(spots) && Ascending(sorted) && multiset(sorted) == multiset(spots)
    ensures AtMostOneComma(sorted)
  {
    forall i, j | 0 <= i < j < |sorted| ensures ',' !in sorted[i].id || ',' !in sorted[j].id {
      assert sorted[i] in multiset(spots) && sorted[j] in multiset(spots);
      LessTotal(sorted[i].id, sorted[j].id);
      TwoCommas(spots, sorted[i], sorted[j]);
    }
  }

  lemma FourAscending(x: Spot, xy: Spot, yz: Spot, z: Spot)
    requires Less(x.id, xy.id) && Less(xy.id, yz.id) && Less(yz.id, z.id)
    ensures Ascending([x, xy, yz, z]) && DistinctIds([x, xy, yz, z])
  {
    LessTrans(x.id, xy.id, yz.id);
    LessTrans(x.id, yz.id, z.id);
    LessTrans(xy.id, yz.id, z.id);
    AscendingDistinct([x, xy, yz, z]);
  }

  lemma AscendingDistinct(spots: seq<Spot>)
    requires Ascending(spots)
    ensures DistinctIds(spots)
  {
    forall i, j | 0 <= i < j < |spots| ensures spots[i].id != spots[j].id {
      LessTotal(spots[i].id, spots[j].id);
    }
  }

  lemma FourInOrder(x: Spot, xy: Spot, yz: Spot, z: Spot)
    requires x.id == "x" && xy.id == "x,y" && yz.id == "y,z" && z.id == "z"
    ensures SortById([x, xy, yz, z]) == [x, xy, yz, z]
  {
    assert xy.id[1..] == ",y" && x.id[1..] == "";
    FourAscending(x, xy, yz, z);
    SortByIdSorts([x, xy, yz, z]);
    AscendingUnique(SortById([x, xy, yz, z]), [x, xy, yz, z]);
  }

  lemma TwoIds(a: Spot, b: Spot)
    ensures Join(Ids([a, b]), ',') == a.id + [','] + b.id
  {
    assert Ids([a, b]) == [a.id, b.id];
    assert [a.id, b.id][1..] == [b.id];
  }

  /** Two spots vanish from the map: four spots, two groups of two, one pin. */
  lemma TwoSpotsVanish(x: Spot, xy: Spot, yz: Spot, z: Spot)
    requires x.id == "x" && xy.id == "x,y" && yz.id == "y,z" && z.id == "z"
    ensures var near := Within(Corners([x, yz], [xy, z]));
      var groups := Groups(near, SortById([x, xy, yz, z]));
      groups == [[x, yz], [xy, z]] && Pinned(groups) == [PinOf([xy, z])]
  {
    var near := Within(Corners([x, yz], [xy, z]));
    FourInOrder(x, xy, yz, z);
    CornersNear([x, yz], [xy, z], x, yz);
    CornersNear([x, yz], [xy, z], x, xy);
    CornersNear([x, yz], [xy, z], x, z);
    CornersNear([x, yz], [xy, z], xy, z);
    FourGroups(near, x, xy, yz, z);
    var groups := [[x, yz], [xy, z]];
    TwoIds(x, yz);
    TwoIds(xy, z);
    assert x.id + [','] + yz.id == xy.id + [','] + z.id;
    KeysEqual([x, yz], [xy, z]);
    assert groups[..1] == [[x, yz]] && [[x, yz]][..0] == [];
    assert Pinned([[x, yz]]) == Put(Pinned([]), PinOf([x, yz])) == [PinOf([x, yz])];
    assert Pinned(groups) == Put([PinOf([x, yz])], PinOf([xy, z]));
  }

  lemma GatherTwo(near: Near, leader: Spot, a: Spot, b: Spot)
    ensures Gather(near, leader, [a, b]) == Gather(near, leader, [a]) + if near(leader, b) then [b] else []
    ensures Leave(near, leader, [a, b]) == Leave(near, leader, [a]) + if near(leader, b) then [] else [b]
  {
    GatherSnoc(near, leader, [a], b);
    assert [a] + [b] == [a, b];
  }

  lemma GatherOne(near: Near, leader: Spot, a: Spot)
    ensures Gather(near, leader, [a]) == if near(leader, a) then [a] else []
    ensures Leave(near, leader, [a]) == if near(leader, a) then [] else [a]
  {
    assert [a][..0] == [];
  }

  lemma GatherThree(near: Near, leader: Spot, a: Spot, b: Spot, c: Spot)
    requires !near(leader, a) && near(leader, b) && !near(leader, c)
    ensures Gather(near, leader, [a, b, c]) == [b] && Leave(near, leader, [a, b, c]) == [a, c]
  {
    GatherOne(near, leader, a);
    GatherTwo(near, leader, a, b);
    GatherSnoc(near, leader, [a, b], c);
    assert [a, b] + [c] == [a, b, c];
  }

  lemma FourGroups(near: Near, x: Spot, xy: Spot, yz: Spot, z: Spot)
    requires near(x, yz) && !near(x, xy) && !near(x, z) && near(xy, z)
    ensures Groups(near, [x, xy, yz, z]) == [[x, yz], [xy, z]]
  {
    FirstOfFour(near, x, xy, yz, z);
    TwoTogether(near, xy, z);
    assert [[x, yz]] + [[xy, z]] == [[x, yz], [xy, z]];
  }

  lemma FirstOfFour(near: Near, x: Spot, xy: Spot, yz: Spot, z: Spot)
    requires near(x, yz) && !near(x, xy) && !near(x, z)
    ensures Groups(near, [x, xy, yz, z]) == [[x, yz]] + Groups(near, [xy, z])
  {
    GatherThree(near, x, xy, yz, z);
    GroupsFirst(near, x, [xy, yz, z]);
    assert [x] + [xy, yz, z] == [x, xy, yz, z] && [x] + [yz] == [x, yz];
  }

  lemma TwoTogether(near: Near, xy: Spot, z: Spot)
    requires near(xy, z)
    ensures Groups(near, [xy, z]) == [[xy, z]]
  {
    GatherOne(near, xy, z);
    GroupsFirst(near, xy, [z]);
    assert [xy] + [z] == [xy, z];
  }

  // ---------------------------------------------------------------- where a pin stands

  function Lngs(spots: seq<Spot>): real {
    if spots == [] then 0.0 else Lngs(spots[..|spots| - 1]) + spots[|spots| - 1].lng
  }

  function Lats(spots: seq<Spot>): real {
    if spots == [] then 0.0 else Lats(spots[..|spots| - 1]) + spots[|spots| - 1].lat
  }

  lemma {:induction false} SumsAre(spots: seq<Spot>)
    ensures Sum(spots, Lng) == Lngs(spots) && Sum(spots, Lat) == Lats(spots)
  {
    if spots != [] {
      SumsAre(spots[..|spots| - 1]);
    }
  }

  lemma {:induction false} LowestOf(group: seq<Spot>, pick: Spot -> real) returns (low: Spot)
    requires group != []
    ensures low in group && forall s | s in group :: pick(low) <= pick(s)
  {
    var front, last := group[..|group| - 1], group[|group| - 1];
    assert group == front + [last];
    low := last;
    if front != [] {
      var other := LowestOf(front, pick);
      low := if pick(other) < pick(last) then other else last;
    }
  }

  lemma {:induction false} HighestOf(group: seq<Spot>, pick: Spot -> real) returns (high: Spot)
    requires group != []
    ensures high in group && forall s | s in group :: pick(s) <= pick(high)
  {
    var front, last := group[..|group| - 1], group[|group| - 1];
    assert group == front + [last];
    high := last;
    if front != [] {
      var other := HighestOf(front, pick);
      high := if pick(other) > pick(last) then other else last;
    }
  }

  lemma MeanBetween(group: seq<Spot>, pick: Spot -> real) returns (low: Spot, high: Spot)
    requires group != []
    ensures low in group && high in group && pick(low) <= Mean(group, pick) <= pick(high)
  {
    low := LowestOf(group, pick);
    high := HighestOf(group, pick);
    MeanIsAmong(group, pick, pick(low), pick(high));
  }

  lemma OneSpotMean(group: seq<Spot>, pick: Spot -> real)
    requires |group| == 1
    ensures Mean(group, pick) == pick(group[0])
  {
    assert group[..0] == [] && Sum(group[..0], pick) == 0.0;
    assert Sum(group, pick) == pick(group[0]);
    assert |group| as real == 1.0;
  }

  lemma PinSums(group: seq<Spot>)
    requires group != []
    ensures PinOf(group).lng == Lngs(group) / |group| as real && PinOf(group).lat == Lats(group) / |group| as real
  {
    SumsAre(group);
  }

  lemma PinBetween(group: seq<Spot>) returns (west: Spot, east: Spot, south: Spot, north: Spot)
    requires group != []
    ensures west in group && east in group && west.lng <= PinOf(group).lng <= east.lng
    ensures south in group && north in group && south.lat <= PinOf(group).lat <= north.lat
  {
    west, east := MeanBetween(group, Lng);
    south, north := MeanBetween(group, Lat);
  }

  lemma PinPrice(group: seq<Spot>)
    requires group != []
    ensures PinOf(group).spots == group
    ensures |group| == 1 ==> PinOf(group).lng == group[0].lng && PinOf(group).lat == group[0].lat && PinOf(group).price == Some(group[0].price)
    ensures |group| > 1 ==> PinOf(group).price == None
  {
    if |group| == 1 {
      OneSpotMean(group, Lng);
      OneSpotMean(group, Lat);
    }
  }

  lemma {:induction false} PutIn(pins: seq<Pin>, pin: Pin, p: Pin)
    requires p in Put(pins, pin)
    ensures p == pin || p in pins
  {
    if pins != [] {
      assert pins == [pins[0]] + pins[1..];
      if pins[0].key != pin.key && p != pins[0] {
        PutIn(pins[1..], pin, p);
      }
    }
  }

  /** Every pin is some group's. */
  lemma {:induction false} PinnedFrom(groups: seq<seq<Spot>>, p: Pin) returns (g: nat)
    requires p in Pinned(groups)
    ensures g < |groups| && p == PinOf(groups[g])
  {
    var front, last := groups[..|groups| - 1], groups[|groups| - 1];
    PutIn(Pinned(front), PinOf(last), p);
    if p == PinOf(last) {
      g := |groups| - 1;
    } else {
      g := PinnedFrom(front, p);
    }
  }

  lemma {:induction false} NoEmptyGroup(near: Near, spots: seq<Spot>)
    ensures forall g | g in Groups(near, spots) :: g != []
    decreases |spots|
  {
    if spots != [] {
      NoEmptyGroup(near, Leave(near, spots[0], spots[1..]));
    }
  }

  /**
   Where the pins of a page stand: each at the mean of its own spots, longitude by longitude and
   latitude by latitude, so between the outermost of them. A pin of one spot stands on it and shows its
   price; a pin of more shows none.
   */
  lemma PinsStand(near: Near, spots: seq<Spot>, p: Pin)
    requires p in Pinned(Groups(near, spots))
    ensures p.spots != []
    ensures p.lng == Lngs(p.spots) / |p.spots| as real && p.lat == Lats(p.spots) / |p.spots| as real
    ensures (exists s | s in p.spots :: s.lng <= p.lng) && (exists s | s in p.spots :: p.lng <= s.lng)
    ensures (exists s | s in p.spots :: s.lat <= p.lat) && (exists s | s in p.spots :: p.lat <= s.lat)
    ensures |p.spots| == 1 ==> p.lng == p.spots[0].lng && p.lat == p.spots[0].lat && p.price == Some(p.spots[0].price)
    ensures |p.spots| > 1 ==> p.price == None
  {
    var group := GroupOf(near, spots, p);
    PinPrice(group);
    PinSums(group);
    var west, east, south, north := PinBetween(group);
    assert west in p.spots && east in p.spots && south in p.spots && north in p.spots;
  }

  lemma GroupOf(near: Near, spots: seq<Spot>, p: Pin) returns (group: seq<Spot>)
    requires p in Pinned(Groups(near, spots))
    ensures group != [] && p == PinOf(group)
  {
    var g := PinnedFrom(Groups(near, spots), p);
    NoEmptyGroup(near, spots);
    group := Groups(near, spots)[g];
    assert group in Groups(near, spots);
  }

  // ---------------------------------------------------------------- the loops

  /** The spots from `i` up to `j` that are not taken. */
  function Untaken(spots: seq<Spot>, taken: seq<bool>, i: nat, j: nat): seq<Spot>
    requires i <= j <= |spots| == |taken|
    decreases j - i
  {
    if i == j then []
    else if taken[j - 1] then Untaken(spots, taken, i, j - 1)
    else Untaken(spots, taken, i, j - 1) + [spots[j - 1]]
  }

  lemma {:induction false} UntakenFirst(spots: seq<Spot>, taken: seq<bool>, i: nat, j: nat)
    requires i < j <= |spots| == |taken|
    ensures taken[i] ==> Untaken(spots, taken, i, j) == Untaken(spots, taken, i + 1, j)
    ensures !taken[i] ==> Untaken(spots, taken, i, j) == [spots[i]] + Untaken(spots, taken, i + 1, j)
    decreases j - i
  {
    if i + 1 < j {
      UntakenFirst(spots, taken, i, j - 1);
    }
  }

  lemma {:induction false} UntakenSame(spots: seq<Spot>, a: seq<bool>, b: seq<bool>, i: nat, j: nat)
    requires i <= j <= |spots| == |a| == |b| && forall k :: i <= k < j ==> a[k] == b[k]
    ensures Untaken(spots, a, i, j) == Untaken(spots, b, i, j)
    decreases j - i
  {
    if i < j {
      UntakenSame(spots, a, b, i, j - 1);
    }
  }

  lemma GatherSnoc(near: Near, leader: Spot, rest: seq<Spot>, x: Spot)
    ensures near(leader, x) ==> Gather(near, leader, rest + [x]) == Gather(near, leader, rest) + [x]
    ensures near(leader, x) ==> Leave(near, leader, rest + [x]) == Leave(near, leader, rest)
    ensures !near(leader, x) ==> Gather(near, leader, rest + [x]) == Gather(near, leader, rest)
    ensures !near(leader, x) ==> Leave(near, leader, rest + [x]) == Leave(near, leader, rest) + [x]
  {
    assert (rest + [x])[..|rest|] == rest;
  }

  /** One leader's pass over the spots behind it. */
  method GatherFrom(sorted: seq<Spot>, near: Near, taken: array<bool>, i: nat) returns (group: seq<Spot>)
    requires taken.Length == |sorted| && i < |sorted|
    modifies taken
    ensures group == [sorted[i]] + Gather(near, sorted[i], old(Untaken(sorted, taken[..], i + 1, |sorted|)))
    ensures Untaken(sorted, taken[..], i + 1, |sorted|) == Leave(near, sorted[i], old(Untaken(sorted, taken[..], i + 1, |sorted|)))
  {
    ghost var was := taken[..];
    group := [sorted[i]];
    ghost var seen: seq<Spot> := [];
    for j := i + 1 to |sorted|
      invariant seen == Untaken(sorted, was, i + 1, j)
      invariant group == [sorted[i]] + Gather(near, sorted[i], seen)
      invariant Untaken(sorted, taken[..], i + 1, j) == Leave(near, sorted[i], seen)
      invariant taken[j..] == was[j..]
    {
      ghost var now := taken[..];
      assert taken[j..][0] == was[j..][0];
      assert taken[j + 1..] == taken[j..][1..] && was[j + 1..] == was[j..][1..];
      if !taken[j] && near(sorted[i], sorted[j]) {
        taken[j] := true;
        group := group + [sorted[j]];
      }
      UntakenSame(sorted, now, taken[..], i + 1, j);
      if !was[j] {
        GatherSnoc(near, sorted[i], seen, sorted[j]);
        seen := seen + [sorted[j]];
      }
    }
  }

  method ClusterPins(spots: seq<Spot>, near: Near) returns (pins: seq<Pin>)
    ensures pins == Pinned(Groups(near, SortById(spots)))
    ensures forall p | p in pins ::
      p.spots != [] && p.lng == Lngs(p.spots) / |p.spots| as real && p.lat == Lats(p.spots) / |p.spots| as real
    ensures forall p | p in pins :: |p.spots| == 1 ==>
      p.lng == p.spots[0].lng && p.lat == p.spots[0].lat && p.price == Some(p.spots[0].price)
    ensures forall p | p in pins :: |p.spots| > 1 ==> p.price == None
  {
    pins := ClusterSorted(SortById(spots), near);
    forall p | p in pins
      ensures p.spots != [] && p.lng == Lngs(p.spots) / |p.spots| as real && p.lat == Lats(p.spots) / |p.spots| as real
      ensures |p.spots| == 1 ==> p.lng == p.spots[0].lng && p.lat == p.spots[0].lat && p.price == Some(p.spots[0].price)
      ensures |p.spots| > 1 ==> p.price == None
    {
      PinsStand(near, SortById(spots), p);
    }
  }

  method ClusterSorted(sorted: seq<Spot>, near: Near) returns (pins: seq<Pin>)
    ensures pins == Pinned(Groups(near, sorted))
  {
    var taken := new bool[|sorted|](_ => false);
    pins := [];
    ghost var done: seq<seq<Spot>> := [];
    ghost var togo := sorted;
    NoneTaken(sorted, taken[..], |sorted|);
    assert sorted[..|sorted|] == sorted;
    for i := 0 to |sorted|
      invariant togo == Untaken(sorted, taken[..], i, |sorted|)
      invariant done + Groups(near, togo) == Groups(near, sorted)
      invariant pins == Pinned(done)
    {
      UntakenFirst(sorted, taken[..], i, |sorted|);
      if taken[i] {
        continue;
      }
      ghost var rest := Untaken(sorted, taken[..], i + 1, |sorted|);
      var group := GatherFrom(sorted, near, taken, i);
      NextGroup(near, done, sorted[i], rest, group, Groups(near, sorted));
      pins := Put(pins, PinOf(group));
      done := done + [group];
      togo := Leave(near, sorted[i], rest);
    }
    assert done + [] == done;
  }

  /** The groups done, and those still to come, after one more leader. */
  lemma NextGroup(near: Near, done: seq<seq<Spot>>, leader: Spot, rest: seq<Spot>, group: seq<Spot>, all: seq<seq<Spot>>)
    requires done + Groups(near, [leader] + rest) == all
    requires group == [leader] + Gather(near, leader, rest)
    ensures done + [group] + Groups(near, Leave(near, leader, rest)) == all
    ensures Pinned(done + [group]) == Put(Pinned(done), PinOf(group))
  {
    GroupsFirst(near, leader, rest);
    assert (done + [group])[..|done|] == done;
  }

  lemma GroupsFirst(near: Near, leader: Spot, rest: seq<Spot>)
    ensures Groups(near, [leader] + rest) == [[leader] + Gather(near, leader, rest)] + Groups(near, Leave(near, leader, rest))
  {
    assert ([leader] + rest)[1..] == rest;
  }

  lemma {:induction false} NoneTaken(spots: seq<Spot>, taken: seq<bool>, j: nat)
    requires j <= |spots| == |taken| && forall k :: 0 <= k < j ==> !taken[k]
    ensures Untaken(spots, taken, 0, j) == spots[..j]
  {
    if j > 0 {
      NoneTaken(spots, taken, j - 1);
    }
  }
}
