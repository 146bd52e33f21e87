/** day_5.rs: the category mapping engine ("seed-to-soil", "soil-to-fertilizer", ...).
    A `Mapping` is an ordered list of interval rules (`Entry`) between two named
    categories; a point is moved by the first rule whose interval holds it and is kept
    as it is when none does. A `Builder` (the source's `MappingBuilder`) finds a chain
    of category pairs between two names, walking forward first and backward second,
    and folds a list of points through every mapping on that chain.
    The text parsing (regular expressions) is not modelled: the engine starts from
    parsed entries. */
module Seeds {
  import opened Wrappers
  import opened Utils

  // ================================================================ MappingEntry

  /** One rule: `[sourceStart, sourceStart + length)` moves to
      `[destinationStart, destinationStart + length)`. */
  datatype Entry = Entry(sourceStart: nat, destinationStart: nat, length: nat)

  /** `self.source_start + self.length - 1` does not underflow. */
  predicate SourceEndDefined(e: Entry) {
    e.sourceStart + e.length >= 1
  }

  /** `self.destination_start + self.length - 1` does not underflow. */
  predicate DestEndDefined(e: Entry) {
    e.destinationStart + e.length >= 1
  }

  predicate Covers(e: Entry, x: nat) {
    e.sourceStart <= x < e.sourceStart + e.length
  }

  predicate CoversDest(e: Entry, y: nat) {
    e.destinationStart <= y < e.destinationStart + e.length
  }

  /** `MappingEntry::map`: the point moved into the destination interval, or None
      when the point is outside the source interval. */
  function EntryMap(e: Entry, x: nat): (r: Option<nat>)
    requires SourceEndDefined(e)
    ensures r.Some? <==> Covers(e, x)
    ensures r.Some? ==> r.value - e.destinationStart == x - e.sourceStart
  {
    var selfEnd := e.sourceStart + e.length - 1;
    if x >= e.sourceStart && x <= selfEnd then
      Some(e.destinationStart + (x - e.sourceStart))
    else None
  }

  /** `MappingEntry::map_reverse`: the point moved back into the source interval, or
      None when the point is outside the destination interval. */
  function EntryMapReverse(e: Entry, y: nat): (r: Option<nat>)
    requires DestEndDefined(e)
    ensures r.Some? <==> CoversDest(e, y)
    ensures r.Some? ==> r.value - e.sourceStart == y - e.destinationStart
  {
    var selfEnd := e.destinationStart + e.length - 1;
    if y >= e.destinationStart && y <= selfEnd then
      Some(e.sourceStart + (y - e.destinationStart))
    else None
  }

  /** An entry maps `x` to `y` exactly when it maps `y` back to `x`. */
  lemma EntryRoundTrip(e: Entry, x: nat, y: nat)
    requires SourceEndDefined(e) && DestEndDefined(e)
    ensures EntryMap(e, x) == Some(y) <==> EntryMapReverse(e, y) == Some(x)
  {
  }

  /** The rule with its two intervals exchanged. */
  function Flip(e: Entry): Entry {
    Entry(e.destinationStart, e.sourceStart, e.length)
  }

  /** Mapping backward through a rule is mapping forward through the flipped rule. */
  lemma EntryReverseIsFlip(e: Entry, y: nat)
    requires DestEndDefined(e)
    ensures SourceEndDefined(Flip(e)) && EntryMapReverse(e, y) == EntryMap(Flip(e), y)
  {
  }

  // ================================================================ Mapping

  datatype Mapping = Mapping(source: string, destination: string, entries: seq<Entry>)

  /** Every rule can be evaluated in both directions without underflow. */
  predicate EntriesValid(es: seq<Entry>) {
    forall k :: 0 <= k < |es| ==> SourceEndDefined(es[k]) && DestEndDefined(es[k])
  }

  /** Rule `i` is the first rule whose source interval holds `x`. */
  predicate IsFirstMatch(es: seq<Entry>, x: nat, i: int) {
    0 <= i < |es| && Covers(es[i], x) && forall j :: 0 <= j < i ==> !Covers(es[j], x)
  }

  /** Rule `i` is the first rule whose destination interval holds `y`. */
  predicate IsFirstReverseMatch(es: seq<Entry>, y: nat, i: int) {
    0 <= i < |es| && CoversDest(es[i], y) && forall j :: 0 <= j < i ==> !CoversDest(es[j], y)
  }

  predicate NoneCovers(es: seq<Entry>, x: nat) {
    forall j :: 0 <= j < |es| ==> !Covers(es[j], x)
  }

  predicate NoneCoversDest(es: seq<Entry>, y: nat) {
    forall j :: 0 <= j < |es| ==> !CoversDest(es[j], y)
  }

  /** The value of the first rule that maps `x`, if any. */
  function FirstMatch(es: seq<Entry>, x: nat): Option<nat>
    requires EntriesValid(es)
  {
    if es == [] then None
    else match EntryMap(es[0], x)
      case Some(y) => Some(y)
      case None => FirstMatch(es[1..], x)
  }

  /** The value of the first rule that maps `y` back, if any. */
  function FirstReverseMatch(es: seq<Entry>, y: nat): Option<nat>
    requires EntriesValid(es)
  {
    if es == [] then None
    else match EntryMapReverse(es[0], y)
      case Some(x) => Some(x)
      case None => FirstReverseMatch(es[1..], y)
  }

  /** What `Mapping::map` computes: the first matching rule's value, else `x` itself. */
  function MapCode(es: seq<Entry>, x: nat): nat
    requires EntriesValid(es)
  {
    match FirstMatch(es, x)
    case Some(y) => y
    case None => x
  }

  /** What `Mapping::map_reverse` computes. */
  function MapCodeReverse(es: seq<Entry>, y: nat): nat
    requires EntriesValid(es)
  {
    match FirstReverseMatch(es, y)
    case Some(x) => x
    case None => y
  }

  /** First match wins; no match is the identity. */
  lemma {:induction false} MapCodeFirstMatch(es: seq<Entry>, x: nat)
    requires EntriesValid(es)
    ensures (exists i :: IsFirstMatch(es, x, i) && MapCode(es, x) == es[i].destinationStart + (x - es[i].sourceStart))
            || (NoneCovers(es, x) && MapCode(es, x) == x)
  {
    if es != [] {
      var tail := es[1..];
      assert EntriesValid(tail);
      MapCodeFirstMatch(tail, x);
      if !Covers(es[0], x) {
        if exists i :: IsFirstMatch(tail, x, i) && MapCode(tail, x) == tail[i].destinationStart + (x - tail[i].sourceStart) {
          var i :| IsFirstMatch(tail, x, i) && MapCode(tail, x) == tail[i].destinationStart + (x - tail[i].sourceStart);
          assert IsFirstMatch(es, x, i + 1);
        } else {
          assert NoneCovers(es, x);
        }
      } else {
        assert IsFirstMatch(es, x, 0);
      }
    }
  }

  /** The same for the reverse direction, over destination intervals. */
  lemma {:induction false} MapCodeReverseFirstMatch(es: seq<Entry>, y: nat)
    requires EntriesValid(es)
    ensures (exists i :: IsFirstReverseMatch(es, y, i) && MapCodeReverse(es, y) == es[i].sourceStart + (y - es[i].destinationStart))
            || (NoneCoversDest(es, y) && MapCodeReverse(es, y) == y)
  {
    if es != [] {
      var tail := es[1..];
      assert EntriesValid(tail);
      MapCodeReverseFirstMatch(tail, y);
      if !CoversDest(es[0], y) {
        if exists i :: IsFirstReverseMatch(tail, y, i) && MapCodeReverse(tail, y) == tail[i].sourceStart + (y - tail[i].destinationStart) {
          var i :| IsFirstReverseMatch(tail, y, i) && MapCodeReverse(tail, y) == tail[i].sourceStart + (y - tail[i].destinationStart);
          assert IsFirstReverseMatch(es, y, i + 1);
        } else {
          assert NoneCoversDest(es, y);
        }
      } else {
        assert IsFirstReverseMatch(es, y, 0);
      }
    }
  }

  /** `Mapping::map`: scan the rules in order and stop at the first that maps the
      point; a point no rule maps is returned unchanged. */
  method MappingMap(m: Mapping, code: nat) returns (r: nat)
    requires EntriesValid(m.entries)
    ensures r == MapCode(m.entries, code)
    ensures (exists i :: IsFirstMatch(m.entries, code, i) && r == m.entries[i].destinationStart + (code - m.entries[i].sourceStart))
            || (NoneCovers(m.entries, code) && r == code)
  {
    var es := m.entries;
    var entryMapping: Option<nat> := None;
    var i := 0;
    while i < |es|
      invariant 0 <= i <= |es| && EntriesValid(es[i..])
      invariant entryMapping == None
      invariant FirstMatch(es, code) == FirstMatch(es[i..], code)
    {
      match EntryMap(es[i], code) {
        case Some(c) =>
          entryMapping := Some(c);
          break;
        case None =>
      }
      assert es[i..][1..] == es[i + 1..];
      i := i + 1;
    }
    match entryMapping {
      case Some(c) => r := c;
      case None => r := code;
    }
    MapCodeFirstMatch(es, code);
  }

  /** `Mapping::map_reverse`: the same scan over the destination intervals. */
  method MappingMapReverse(m: Mapping, code: nat) returns (r: nat)
    requires EntriesValid(m.entries)
    ensures r == MapCodeReverse(m.entries, code)
    ensures (exists i :: IsFirstReverseMatch(m.entries, code, i) && r == m.entries[i].sourceStart + (code - m.entries[i].destinationStart))
            || (NoneCoversDest(m.entries, code) && r == code)
  {
    var es := m.entries;
    var entryMapping: Option<nat> := None;
    var i := 0;
    while i < |es|
      invariant 0 <= i <= |es| && EntriesValid(es[i..])
      invariant entryMapping == None
      invariant FirstReverseMatch(es, code) == FirstReverseMatch(es[i..], code)
    {
      match EntryMapReverse(es[i], code) {
        case Some(c) =>
          entryMapping := Some(c);
          break;
        case None =>
      }
      assert es[i..][1..] == es[i + 1..];
      i := i + 1;
    }
    match entryMapping {
      case Some(c) => r := c;
      case None => r := code;
    }
    MapCodeReverseFirstMatch(es, code);
  }

  /** `Mapping::map_many`: the point map applied to every code, order and length kept. */
  function MapMany(m: Mapping, codes: seq<nat>): (r: seq<nat>)
    requires EntriesValid(m.entries)
    ensures |r| == |codes|
    ensures forall k :: 0 <= k < |codes| ==> r[k] == MapCode(m.entries, codes[k])
  {
    if codes == [] then [] else [MapCode(m.entries, codes[0])] + MapMany(m, codes[1..])
  }

  /** `Mapping::map_many_reverse`. */
  function MapManyReverse(m: Mapping, codes: seq<nat>): (r: seq<nat>)
    requires EntriesValid(m.entries)
    ensures |r| == |codes|
    ensures forall k :: 0 <= k < |codes| ==> r[k] == MapCodeReverse(m.entries, codes[k])
  {
    if codes == [] then [] else [MapCodeReverse(m.entries, codes[0])] + MapManyReverse(m, codes[1..])
  }

  /** `Mapping::get_dest_bottoms`: one destination start per rule, in rule order. */
  function DestBottoms(m: Mapping): (r: seq<nat>)
    ensures |r| == |m.entries|
    ensures forall k :: 0 <= k < |r| ==> r[k] == m.entries[k].destinationStart
  {
    DestStarts(m.entries)
  }

  function DestStarts(es: seq<Entry>): (r: seq<nat>)
    ensures |r| == |es|
    ensures forall k :: 0 <= k < |r| ==> r[k] == es[k].destinationStart
  {
    if es == [] then [] else [es[0].destinationStart] + DestStarts(es[1..])
  }

  /** Mapping backward is not the inverse of mapping forward once the identity
      fallback is involved: with the single rule 50..51 -> 98..99, the point 98 is
      not in any source interval and stays 98, yet mapping 98 back gives 50. The
      inverse property holds per rule only (`EntryRoundTrip`). */
  lemma MapReverseNotInverse()
    ensures var es := [Entry(50, 98, 2)];
            EntriesValid(es) && MapCode(es, 98) == 98 && MapCodeReverse(es, 98) == 50
  {
  }

  /** When the rule that maps `x` is also the first rule whose destination interval
      holds the image, mapping back recovers `x`. */
  lemma MapCodeRoundTrip(es: seq<Entry>, x: nat, i: int)
    requires EntriesValid(es) && IsFirstMatch(es, x, i)
    requires IsFirstReverseMatch(es, MapCode(es, x), i)
    ensures MapCodeReverse(es, MapCode(es, x)) == x
  {
    MapCodeFirstMatch(es, x);
    var i' :| IsFirstMatch(es, x, i') && MapCode(es, x) == es[i'].destinationStart + (x - es[i'].sourceStart);
    assert i' == i;
    MapCodeReverseFirstMatch(es, MapCode(es, x));
  }

  // ================================================================ sorting (day_5.rs:215)

  predicate SortedBySource(es: seq<Entry>) {
    forall i, j :: 0 <= i < j < |es| ==> es[i].sourceStart <= es[j].sourceStart
  }

  /** The rules with the given source start, in their order. */
  function WithStart(es: seq<Entry>, k: nat): seq<Entry> {
    if es == [] then [] else Started(es[0], k) + WithStart(es[1..], k)
  }

  function Started(e: Entry, k: nat): seq<Entry> {
    if e.sourceStart == k then [e] else []
  }

  /** Insert `e` after every rule whose source start is at most its own. */
  function Insert(e: Entry, s: seq<Entry>): (r: seq<Entry>)
    ensures |r| == |s| + 1
  {
    if s == [] then [e]
    else if e.sourceStart < s[0].sourceStart then [e] + s
    else [s[0]] + Insert(e, s[1..])
  }

  /** `entries.sort_by(|a, b| a.source_start.cmp(&b.source_start))`: a stable sort
      by source start; this model uses insertion from the back. */
  function SortBySource(es: seq<Entry>): (r: seq<Entry>)
    ensures |r| == |es|
  {
    if es == [] then [] else Insert(es[|es| - 1], SortBySource(es[..|es| - 1]))
  }

  /** Inserting adds exactly `e`. */
  lemma {:induction false} InsertPerm(e: Entry, s: seq<Entry>)
    ensures multiset(Insert(e, s)) == multiset(s) + multiset{e}
  {
    if s != [] && e.sourceStart >= s[0].sourceStart {
      var r := Insert(e, s[1..]);
      InsertPerm(e, s[1..]);
      assert Insert(e, s) == [s[0]] + r;
      assert multiset([s[0]] + r) == multiset([s[0]]) + multiset(r);
      assert s == [s[0]] + s[1..];
      assert multiset(s) == multiset([s[0]]) + multiset(s[1..]);
    }
  }

  predicate StartsAtLeast(s: seq<Entry>, b: nat) {
    forall j :: 0 <= j < |s| ==> b <= s[j].sourceStart
  }

  lemma {:induction false} InsertBound(e: Entry, s: seq<Entry>, b: nat)
    requires StartsAtLeast(s, b) && b <= e.sourceStart
    ensures StartsAtLeast(Insert(e, s), b)
  {
    if s != [] && e.sourceStart >= s[0].sourceStart {
      assert StartsAtLeast(s[1..], b) by {
        forall j | 0 <= j < |s| - 1 ensures b <= s[1..][j].sourceStart {
          assert s[1..][j] == s[j + 1];
        }
      }
      InsertBound(e, s[1..], b);
      var r := Insert(e, s[1..]);
      forall j | 0 <= j < |r| + 1 ensures b <= ([s[0]] + r)[j].sourceStart {
        if j > 0 { assert ([s[0]] + r)[j] == r[j - 1]; }
      }
    }
  }

  lemma {:induction false} InsertSorted(e: Entry, s: seq<Entry>)
    requires SortedBySource(s)
    ensures SortedBySource(Insert(e, s))
  {
    if s != [] && e.sourceStart >= s[0].sourceStart {
      var t := s[1..];
      SortedTail(s);
      InsertSorted(e, t);
      assert StartsAtLeast(t, s[0].sourceStart) by {
        forall j | 0 <= j < |t| ensures s[0].sourceStart <= t[j].sourceStart {
          assert t[j] == s[j + 1];
        }
      }
      InsertBound(e, t, s[0].sourceStart);
      ConsSorted(s[0], Insert(e, t));
    }
  }

  lemma ConsSorted(x: Entry, r: seq<Entry>)
    requires SortedBySource(r) && StartsAtLeast(r, x.sourceStart)
    ensures SortedBySource([x] + r)
  {
    forall i, j | 0 <= i < j < |r| + 1 ensures ([x] + r)[i].sourceStart <= ([x] + r)[j].sourceStart {
      assert ([x] + r)[j] == r[j - 1];
      if i > 0 { assert ([x] + r)[i] == r[i - 1]; }
    }
  }

  lemma {:induction false} WithStartAppend(a: seq<Entry>, b: seq<Entry>, k: nat)
    ensures WithStart(a + b, k) == WithStart(a, k) + WithStart(b, k)
  {
    if a == [] {
      assert a + b == b;
    } else {
      var rest := a[1..] + b;
      assert a + b == [a[0]] + rest;
      assert a == [a[0]] + a[1..];
      WithStartCons(a[0], rest, k);
      WithStartCons(a[0], a[1..], k);
      WithStartAppend(a[1..], b, k);
      EntriesAssoc(Started(a[0], k), WithStart(a[1..], k), WithStart(b, k));
    }
  }

  lemma WithStartCons(x: Entry, rest: seq<Entry>, k: nat)
    ensures WithStart([x] + rest, k) == Started(x, k) + WithStart(rest, k)
  {
    assert ([x] + rest)[1..] == rest;
  }

  lemma EntriesAssoc(x: seq<Entry>, y: seq<Entry>, z: seq<Entry>)
    ensures x + (y + z) == (x + y) + z
  {
  }

  /** Inserting after the smaller-or-equal keys puts `e` behind every rule with the
      same key: the rules of each key keep their order. */
  lemma {:induction false} InsertStable(e: Entry, s: seq<Entry>, k: nat)
    requires SortedBySource(s)
    ensures WithStart(Insert(e, s), k) == WithStart(s, k) + Started(e, k)
  {
    if s == [] {
      WithStartCons(e, [], k);
      assert [e] == [e] + [];
    } else if e.sourceStart < s[0].sourceStart {
      InsertFrontStable(e, s, k);
    } else {
      var t := s[1..];
      SortedTail(s);
      InsertStable(e, t, k);
      WithStartCons(s[0], Insert(e, t), k);
      WithStartCons(s[0], t, k);
      assert [s[0]] + t == s;
      EntriesAssoc(Started(s[0], k), WithStart(t, k), Started(e, k));
    }
  }

  /** A rule placed in front of rules with larger keys has no rule of its own key
      after it. */
  lemma InsertFrontStable(e: Entry, s: seq<Entry>, k: nat)
    requires SortedBySource(s) && s != [] && e.sourceStart < s[0].sourceStart
    ensures WithStart([e] + s, k) == WithStart(s, k) + Started(e, k)
  {
    WithStartCons(e, s, k);
    if e.sourceStart == k {
      assert StartsAtLeast(s, k + 1) by {
        forall j | 0 <= j < |s| ensures k + 1 <= s[j].sourceStart {
          if j > 0 { assert s[0].sourceStart <= s[j].sourceStart; }
        }
      }
      NoneWithStart(s, k);
    }
  }

  lemma SortedTail(s: seq<Entry>)
    requires SortedBySource(s) && s != []
    ensures SortedBySource(s[1..])
  {
    var t := s[1..];
    forall i, j | 0 <= i < j < |t| ensures t[i].sourceStart <= t[j].sourceStart {
      assert t[i] == s[i + 1] && t[j] == s[j + 1];
    }
  }

  lemma {:induction false} NoneWithStart(s: seq<Entry>, k: nat)
    requires StartsAtLeast(s, k + 1)
    ensures WithStart(s, k) == []
  {
    if s != [] {
      assert StartsAtLeast(s[1..], k + 1) by {
        forall j | 0 <= j < |s| - 1 ensures k + 1 <= s[1..][j].sourceStart {
          assert s[1..][j] == s[j + 1];
        }
      }
      NoneWithStart(s[1..], k);
    }
  }

  /** The sort yields the same rules, ordered by source start, and rules sharing a
      source start keep their original relative order (the sort is stable). */
  lemma {:induction false} SortBySourceCorrect(es: seq<Entry>)
    ensures SortedBySource(SortBySource(es))
    ensures multiset(SortBySource(es)) == multiset(es)
    ensures forall k: nat :: WithStart(SortBySource(es), k) == WithStart(es, k)
  {
    if es != [] {
      var init, last := es[..|es| - 1], es[|es| - 1];
      var sorted := SortBySource(init);
      SortBySourceCorrect(init);
      InsertSorted(last, sorted);
      InsertPerm(last, sorted);
      assert es == init + [last];
      forall k: nat ensures WithStart(SortBySource(es), k) == WithStart(es, k) {
        InsertStable(last, sorted, k);
        WithStartAppend(init, [last], k);
        WithStartCons(last, [], k);
        assert [last] == [last] + [];
      }
    }
  }

  /** Sorting keeps every rule valid. */
  lemma SortKeepsValid(es: seq<Entry>)
    requires EntriesValid(es)
    ensures EntriesValid(SortBySource(es))
  {
    SortBySourceCorrect(es);
    var r := SortBySource(es);
    forall k | 0 <= k < |r| ensures SourceEndDefined(r[k]) && DestEndDefined(r[k]) {
      assert r[k] in multiset(r);
      var m :| 0 <= m < |es| && es[m] == r[k];
    }
  }

  // ================================================================ MappingBuilder

  type Pair = (string, string)

  /** The mappings of an input; every rule of every mapping is valid. */
  predicate BuilderValid(ms: seq<Mapping>) {
    forall k :: 0 <= k < |ms| ==> EntriesValid(ms[k].entries)
  }

  predicate Names(m: Mapping, source: string, destination: string) {
    m.source == source && m.destination == destination
  }

  /** What `get_mapping` returns: the first mapping with both names, if any. */
  function FindMapping(ms: seq<Mapping>, source: string, destination: string): (r: Option<Mapping>)
    ensures r.Some? <==> exists k :: 0 <= k < |ms| && Names(ms[k], source, destination)
    ensures r.Some? ==> r.value in ms && Names(r.value, source, destination)
  {
    if ms == [] then None
    else if Names(ms[0], source, destination) then Some(ms[0])
    else
      var r := FindMapping(ms[1..], source, destination);
      assert forall k :: 1 <= k < |ms| ==> ms[k] == ms[1..][k - 1];
      r
  }

  /** `MappingBuilder::get_mapping`: scan for the first mapping with the given source
      and destination names. */
  method GetMapping(ms: seq<Mapping>, source: string, destination: string) returns (r: Option<Mapping>)
    ensures r == FindMapping(ms, source, destination)
  {
    var i := 0;
    while i < |ms|
      invariant 0 <= i <= |ms|
      invariant forall j :: 0 <= j < i ==> !Names(ms[j], source, destination)
    {
      if ms[i].source == source && ms[i].destination == destination {
        FindMappingFirst(ms, source, destination, i);
        return Some(ms[i]);
      }
      i := i + 1;
    }
    return None;
  }

  /** `FindMapping` picks the mapping at the first position with both names. */
  lemma {:induction false} FindMappingFirst(ms: seq<Mapping>, source: string, destination: string, k: nat)
    requires k < |ms| && Names(ms[k], source, destination)
    requires forall j :: 0 <= j < k ==> !Names(ms[j], source, destination)
    ensures FindMapping(ms, source, destination) == Some(ms[k])
  {
    if k > 0 {
      assert !Names(ms[0], source, destination);
      assert FindMapping(ms, source, destination) == FindMapping(ms[1..], source, destination);
      assert forall j :: 0 <= j < k - 1 ==> ms[1..][j] == ms[j + 1];
      FindMappingFirst(ms[1..], source, destination, k - 1);
    }
  }

  /** The forward `find_map`: the destination of the first mapping whose source is `cur`. */
  function NextDestination(ms: seq<Mapping>, cur: string): (r: Option<string>)
    ensures r.Some? ==> exists k :: 0 <= k < |ms| && Names(ms[k], cur, r.value)
    ensures r.None? <==> forall k :: 0 <= k < |ms| ==> ms[k].source != cur
  {
    if ms == [] then None
    else if ms[0].source == cur then Some(ms[0].destination)
    else
      var r := NextDestination(ms[1..], cur);
      assert forall k :: 1 <= k < |ms| ==> ms[k] == ms[1..][k - 1];
      r
  }

  /** The backward `find_map`: the source of the first mapping whose destination is `cur`. */
  function NextSource(ms: seq<Mapping>, cur: string): (r: Option<string>)
    ensures r.Some? ==> exists k :: 0 <= k < |ms| && Names(ms[k], r.value, cur)
    ensures r.None? <==> forall k :: 0 <= k < |ms| ==> ms[k].destination != cur
  {
    if ms == [] then None
    else if ms[0].destination == cur then Some(ms[0].source)
    else
      var r := NextSource(ms[1..], cur);
      assert forall k :: 1 <= k < |ms| ==> ms[k] == ms[1..][k - 1];
      r
  }

  /** The outcome of one walk: a chain that reaches the target, a dead end (no
      mapping continues the walk), or a walk whose fuel ran out: it made `fuel + 1`
      successful lookups without reaching the target. With `fuel == |ms|` that is one
      lookup more than there are mappings, so a category repeats and the walk of the
      source never stops (`InferDiverges`). */
  datatype Walk = Reached(pairs: seq<Pair>) | Stuck | Endless

  function Prefix(p: seq<Pair>, w: Walk): Walk {
    match w
    case Reached(q) => Reached(p + q)
    case _ => w
  }

  /** The forward walk of `infer_mapping_strategy` from `cur`, allowed `fuel` more
      steps after the next one. */
  function ForwardWalk(ms: seq<Mapping>, cur: string, to: string, fuel: nat): Walk
    decreases fuel
  {
    match NextDestination(ms, cur)
    case None => Stuck
    case Some(d) =>
      if d == to then Reached([(cur, d)])
      else if fuel == 0 then Endless
      else Prefix([(cur, d)], ForwardWalk(ms, d, to, fuel - 1))
  }

  /** The backward walk: follow the first mapping whose destination is the current
      category, recording `(source, destination)` pairs. */
  function BackwardWalk(ms: seq<Mapping>, cur: string, to: string, fuel: nat): Walk
    decreases fuel
  {
    match NextSource(ms, cur)
    case None => Stuck
    case Some(s) =>
      if s == to then Reached([(s, cur)])
      else if fuel == 0 then Endless
      else Prefix([(s, cur)], BackwardWalk(ms, s, to, fuel - 1))
  }

  /** `MappingStrategy`. */
  datatype Strategy = Strategy(doReverse: bool, pairs: seq<Pair>)

  /** The outcome of `infer_mapping_strategy`: a strategy, the panic "Could not find
      mappings", or a walk that never stops (the source loops forever). */
  datatype Inferred = Found(strategy: Strategy) | NoPath | Diverges

  /** What `infer_mapping_strategy` computes: the backward walk is tried only when
      the forward walk reaches a dead end. */
  function Infer(ms: seq<Mapping>, from: string, to: string): Inferred {
    match ForwardWalk(ms, from, to, |ms|)
    case Reached(p) => Found(Strategy(false, p))
    case Endless => Diverges
    case Stuck =>
      match BackwardWalk(ms, from, to, |ms|)
      case Reached(p) => Found(Strategy(true, p))
      case Endless => Diverges
      case Stuck => NoPath
  }

  /** Every pair names a mapping of the input. */
  predicate AllNamed(ms: seq<Mapping>, p: seq<Pair>) {
    forall i :: 0 <= i < |p| ==> Named(ms, p[i])
  }

  /** Some mapping of the input has the pair's two names. */
  predicate Named(ms: seq<Mapping>, pair: Pair) {
    exists k :: 0 <= k < |ms| && Names(ms[k], pair.0, pair.1)
  }

  /** A forward chain from `from` to `to`: each destination is the next source. */
  predicate ForwardChain(p: seq<Pair>, from: string, to: string) {
    |p| >= 1 && p[0].0 == from && p[|p| - 1].1 == to
    && forall i :: 0 <= i < |p| - 1 ==> p[i].1 == p[i + 1].0
  }

  /** A backward chain from `from` to `to`: each source is the next destination. */
  predicate BackwardChain(p: seq<Pair>, from: string, to: string) {
    |p| >= 1 && p[0].1 == from && p[|p| - 1].0 == to
    && forall i :: 0 <= i < |p| - 1 ==> p[i].0 == p[i + 1].1
  }

  lemma {:induction false} ForwardWalkChain(ms: seq<Mapping>, cur: string, to: string, fuel: nat)
    requires ForwardWalk(ms, cur, to, fuel).Reached?
    ensures ForwardChain(ForwardWalk(ms, cur, to, fuel).pairs, cur, to)
    ensures AllNamed(ms, ForwardWalk(ms, cur, to, fuel).pairs)
    decreases fuel
  {
    var d := NextDestination(ms, cur).value;
    if d != to {
      ForwardWalkChain(ms, d, to, fuel - 1);
      var q := ForwardWalk(ms, d, to, fuel - 1).pairs;
      var p := [(cur, d)] + q;
      assert ForwardWalk(ms, cur, to, fuel).pairs == p;
      assert forall i :: 1 <= i < |p| ==> p[i] == q[i - 1];
    }
  }

  lemma {:induction false} BackwardWalkChain(ms: seq<Mapping>, cur: string, to: string, fuel: nat)
    requires BackwardWalk(ms, cur, to, fuel).Reached?
    ensures BackwardChain(BackwardWalk(ms, cur, to, fuel).pairs, cur, to)
    ensures AllNamed(ms, BackwardWalk(ms, cur, to, fuel).pairs)
    decreases fuel
  {
    var s := NextSource(ms, cur).value;
    if s != to {
      BackwardWalkChain(ms, s, to, fuel - 1);
      var q := BackwardWalk(ms, s, to, fuel - 1).pairs;
      var p := [(s, cur)] + q;
      assert BackwardWalk(ms, cur, to, fuel).pairs == p;
      assert forall i :: 1 <= i < |p| ==> p[i] == q[i - 1];
    }
  }

  /** A strategy found walking forward is a forward chain, one found walking backward
      is a backward chain tried only after the forward walk hit a dead end, and every
      pair of either names an existing mapping (so `get_mapping(..).unwrap()` in
      `map` cannot fail). */
  lemma InferCorrect(ms: seq<Mapping>, from: string, to: string)
    ensures Infer(ms, from, to).Found? ==> AllNamed(ms, Infer(ms, from, to).strategy.pairs)
    ensures Infer(ms, from, to).Found? && !Infer(ms, from, to).strategy.doReverse ==>
              ForwardChain(Infer(ms, from, to).strategy.pairs, from, to)
    ensures Infer(ms, from, to).Found? && Infer(ms, from, to).strategy.doReverse ==>
              ForwardWalk(ms, from, to, |ms|) == Stuck
              && BackwardChain(Infer(ms, from, to).strategy.pairs, from, to)
    ensures Infer(ms, from, to) == NoPath <==>
              ForwardWalk(ms, from, to, |ms|) == Stuck && BackwardWalk(ms, from, to, |ms|) == Stuck
  {
    if ForwardWalk(ms, from, to, |ms|).Reached? {
      ForwardWalkChain(ms, from, to, |ms|);
    } else if BackwardWalk(ms, from, to, |ms|).Reached? {
      BackwardWalkChain(ms, from, to, |ms|);
    }
  }

  // ---------------------------------------------------------------- when the walks diverge

  /** One lookup of either walk: forward finds a destination, backward a source. */
  function Next(ms: seq<Mapping>, forward: bool, cur: string): Option<string> {
    if forward then NextDestination(ms, cur) else NextSource(ms, cur)
  }

  /** Where the source's loop stands after `n` iterations from `cur`, or `None` once a
      lookup has failed (the loop has then stopped with `break false`). */
  function WalkAt(ms: seq<Mapping>, forward: bool, cur: string, n: nat): Option<string>
    decreases n
  {
    if n == 0 then Some(cur)
    else
      match Next(ms, forward, cur)
      case None => None
      case Some(d) => WalkAt(ms, forward, d, n - 1)
  }

  /** The end a lookup matches on: the source when walking forward, the destination
      when walking backward. */
  function End(m: Mapping, forward: bool): string {
    if forward then m.source else m.destination
  }

  /** The ends of all mappings: there are never more of them than mappings. */
  function Ends(ms: seq<Mapping>, forward: bool): (r: set<string>)
    ensures |r| <= |ms|
    ensures forall k :: 0 <= k < |ms| ==> End(ms[k], forward) in r
  {
    if ms == [] then {}
    else
      var rest := Ends(ms[1..], forward);
      assert forall k :: 1 <= k < |ms| ==> ms[k] == ms[1..][k - 1];
      {End(ms[0], forward)} + rest
  }

  /** A category from which a lookup succeeds is one of the ends. */
  lemma NextInEnds(ms: seq<Mapping>, forward: bool, cur: string)
    requires Next(ms, forward, cur).Some?
    ensures cur in Ends(ms, forward)
  {
    var k :| 0 <= k < |ms| && End(ms[k], forward) == cur;
  }

  /** `a + b` iterations are `a` iterations followed by `b` more. */
  lemma {:induction false} WalkAtAdd(ms: seq<Mapping>, forward: bool, cur: string, a: nat, b: nat)
    ensures WalkAt(ms, forward, cur, a + b)
            == match WalkAt(ms, forward, cur, a)
               case None => None
               case Some(x) => WalkAt(ms, forward, x, b)
    decreases a
  {
    if a > 0 {
      match Next(ms, forward, cur)
      case None =>
      case Some(d) => WalkAtAdd(ms, forward, d, a - 1, b);
    }
  }

  /** Distinct present values drawn from a set are no more than the set's size. */
  lemma {:induction false} DistinctBound<T>(xs: seq<Option<T>>, s: set<T>)
    requires forall i :: 0 <= i < |xs| ==> xs[i].Some? && xs[i].value in s
    requires forall i, j :: 0 <= i < j < |xs| ==> xs[i] != xs[j]
    ensures |xs| <= |s|
    decreases |xs|
  {
    if xs != [] {
      var init, last := xs[..|xs| - 1], xs[|xs| - 1];
      assert forall i :: 0 <= i < |init| ==> init[i] == xs[i];
      DistinctBound(init, s - {last.value});
    }
  }

  /** More successful lookups than mappings must revisit a category. */
  lemma WalkRepeats(ms: seq<Mapping>, forward: bool, cur: string) returns (i: nat, j: nat)
    requires forall n :: 1 <= n <= |ms| + 1 ==> WalkAt(ms, forward, cur, n).Some?
    ensures i < j <= |ms| && WalkAt(ms, forward, cur, i).Some?
    ensures WalkAt(ms, forward, cur, i) == WalkAt(ms, forward, cur, j)
  {
    var xs := seq(|ms| + 1, (k: int) requires 0 <= k => WalkAt(ms, forward, cur, k));
    forall k | 0 <= k < |xs|
      ensures xs[k].Some? && xs[k].value in Ends(ms, forward)
    {
      WalkAtAdd(ms, forward, cur, k, 1);
      assert WalkAt(ms, forward, cur, k + 1).Some?;
      NextInEnds(ms, forward, WalkAt(ms, forward, cur, k).value);
    }
    if forall a, b :: 0 <= a < b < |xs| ==> xs[a] != xs[b] {
      DistinctBound(xs, Ends(ms, forward));
      assert false;
    }
    i, j :| 0 <= i < j < |xs| && xs[i] == xs[j];
  }

  /** Once the walk revisits a category it repeats for ever, so every later iteration
      also succeeds without reaching `to`. */
  lemma {:induction false} WalkCycles(ms: seq<Mapping>, forward: bool, cur: string, to: string, i: nat, j: nat, n: nat)
    requires i < j <= |ms| && WalkAt(ms, forward, cur, i).Some?
    requires WalkAt(ms, forward, cur, i) == WalkAt(ms, forward, cur, j)
    requires forall k :: 1 <= k <= |ms| + 1 ==>
               WalkAt(ms, forward, cur, k).Some? && WalkAt(ms, forward, cur, k).value != to
    requires n >= 1
    ensures WalkAt(ms, forward, cur, n).Some? && WalkAt(ms, forward, cur, n).value != to
    decreases n
  {
    if n > |ms| + 1 {
      var p := j - i;
      WalkCycles(ms, forward, cur, to, i, j, n - p);
      WalkAtAdd(ms, forward, cur, j, n - j);
      WalkAtAdd(ms, forward, cur, i, n - j);
      assert i + (n - j) == n - p;
    }
  }

  /** A forward walk that ran out of fuel made `fuel + 1` successful lookups, none of
      them reaching `to`. */
  lemma {:induction false} ForwardEndless(ms: seq<Mapping>, cur: string, to: string, fuel: nat)
    requires ForwardWalk(ms, cur, to, fuel) == Endless
    ensures forall n :: 1 <= n <= fuel + 1 ==>
              WalkAt(ms, true, cur, n).Some? && WalkAt(ms, true, cur, n).value != to
    decreases fuel
  {
    var d := NextDestination(ms, cur).value;
    if fuel > 0 {
      ForwardEndless(ms, d, to, fuel - 1);
    }
  }

  /** The same for the backward walk. */
  lemma {:induction false} BackwardEndless(ms: seq<Mapping>, cur: string, to: string, fuel: nat)
    requires BackwardWalk(ms, cur, to, fuel) == Endless
    ensures forall n :: 1 <= n <= fuel + 1 ==>
              WalkAt(ms, false, cur, n).Some? && WalkAt(ms, false, cur, n).value != to
    decreases fuel
  {
    var s := NextSource(ms, cur).value;
    if fuel > 0 {
      BackwardEndless(ms, s, to, fuel - 1);
    }
  }

  /** `Diverges` is reported only when the source's loop never stops: either the
      forward loop succeeds at every iteration without reaching `to`, or the forward
      loop hits a dead end and the backward loop then never stops. */
  lemma InferDiverges(ms: seq<Mapping>, from: string, to: string)
    requires Infer(ms, from, to) == Diverges
    ensures (forall n :: n >= 1 ==> WalkAt(ms, true, from, n).Some? && WalkAt(ms, true, from, n).value != to)
            || (ForwardWalk(ms, from, to, |ms|) == Stuck
                && forall n :: n >= 1 ==> WalkAt(ms, false, from, n).Some? && WalkAt(ms, false, from, n).value != to)
  {
    var forward := ForwardWalk(ms, from, to, |ms|) == Endless;
    if forward {
      ForwardEndless(ms, from, to, |ms|);
    } else {
      BackwardEndless(ms, from, to, |ms|);
    }
    var i, j := WalkRepeats(ms, forward, from);
    forall n | n >= 1
      ensures WalkAt(ms, forward, from, n).Some? && WalkAt(ms, forward, from, n).value != to
    {
      WalkCycles(ms, forward, from, to, i, j, n);
    }
  }

  lemma PrefixAppend(p: seq<Pair>, x: Pair, w: Walk)
    ensures Prefix(p, Prefix([x], w)) == Prefix(p + [x], w)
  {
    if w.Reached? {
      assert p + ([x] + w.pairs) == (p + [x]) + w.pairs;
    }
  }

  /** Where the forward walk stands after the pairs pushed so far. */
  function LastDestination(p: seq<Pair>, from: string): string {
    if p == [] then from else p[|p| - 1].1
  }

  /** Where the backward walk stands after the pairs pushed so far. */
  function LastSource(p: seq<Pair>, from: string): string {
    if p == [] then from else p[|p| - 1].0
  }

  /** The forward loop of `infer_mapping_strategy`, pushing onto `mappings`. */
  method WalkForward(ms: seq<Mapping>, from: string, to: string) returns (w: Walk)
    ensures w == ForwardWalk(ms, from, to, |ms|)
  {
    var n := |ms|;
    var mappings: seq<Pair> := [];
    while true
      invariant |mappings| <= n
      invariant ForwardWalk(ms, from, to, n)
                == Prefix(mappings, ForwardWalk(ms, LastDestination(mappings, from), to, n - |mappings|))
      decreases n - |mappings|
    {
      var lastThing := if mappings == [] then from else mappings[|mappings| - 1].1;
      var localTo := NextDestination(ms, lastThing);
      if localTo.None? {
        return Stuck;
      }
      var fuel := n - |mappings|;
      var step := (lastThing, localTo.value);
      PrefixAppend(mappings, step, ForwardWalk(ms, localTo.value, to, if fuel == 0 then 0 else fuel - 1));
      mappings := mappings + [step];
      assert LastDestination(mappings, from) == localTo.value;
      if localTo.value == to {
        return Reached(mappings);
      }
      if fuel == 0 {
        return Endless;
      }
    }
  }

  /** The backward loop of `infer_mapping_strategy`, pushing onto `reverse_mappings`. */
  method WalkBackward(ms: seq<Mapping>, from: string, to: string) returns (w: Walk)
    ensures w == BackwardWalk(ms, from, to, |ms|)
  {
    var n := |ms|;
    var reverseMappings: seq<Pair> := [];
    while true
      invariant |reverseMappings| <= n
      invariant BackwardWalk(ms, from, to, n)
                == Prefix(reverseMappings, BackwardWalk(ms, LastSource(reverseMappings, from), to, n - |reverseMappings|))
      decreases n - |reverseMappings|
    {
      var lastThing := if reverseMappings == [] then from else reverseMappings[|reverseMappings| - 1].0;
      var localFrom := NextSource(ms, lastThing);
      if localFrom.None? {
        return Stuck;
      }
      var fuel := n - |reverseMappings|;
      var step := (localFrom.value, lastThing);
      PrefixAppend(reverseMappings, step, BackwardWalk(ms, localFrom.value, to, if fuel == 0 then 0 else fuel - 1));
      reverseMappings := reverseMappings + [step];
      assert LastSource(reverseMappings, from) == localFrom.value;
      if localFrom.value == to {
        return Reached(reverseMappings);
      }
      if fuel == 0 {
        return Endless;
      }
    }
  }

  /** `MappingBuilder::infer_mapping_strategy`: the forward walk, then, only if it
      reached a dead end, the backward walk; a panic when both reach dead ends. */
  method InferMappingStrategy(ms: seq<Mapping>, from: string, to: string) returns (r: Inferred)
    ensures r == Infer(ms, from, to)
  {
    var forward := WalkForward(ms, from, to);
    match forward {
      case Reached(p) => return Found(Strategy(false, p));
      case Endless => return Diverges;
      case Stuck =>
    }
    var backward := WalkBackward(ms, from, to);
    match backward {
      case Reached(p) => return Found(Strategy(true, p));
      case Endless => return Diverges;
      case Stuck => return NoPath;
    }
  }

  // ================================================================ MappingBuilder::map

  lemma FoundIsValid(ms: seq<Mapping>, source: string, destination: string)
    requires BuilderValid(ms) && FindMapping(ms, source, destination).Some?
    ensures EntriesValid(FindMapping(ms, source, destination).value.entries)
  {
    var m := FindMapping(ms, source, destination).value;
    var k :| 0 <= k < |ms| && ms[k] == m;
  }

  /** One step of the fold: the codes moved through one mapping, backward when the
      strategy was found walking backward. */
  function Step(m: Mapping, doReverse: bool, codes: seq<nat>): (r: seq<nat>)
    requires EntriesValid(m.entries)
  {
    if doReverse then MapManyReverse(m, codes) else MapMany(m, codes)
  }

  function StepPoint(m: Mapping, doReverse: bool, x: nat): nat
    requires EntriesValid(m.entries)
  {
    if doReverse then MapCodeReverse(m.entries, x) else MapCode(m.entries, x)
  }

  /** The codes folded through the mapping of every pair, in chain order. */
  function FoldChain(ms: seq<Mapping>, pairs: seq<Pair>, doReverse: bool, codes: seq<nat>): seq<nat>
    requires BuilderValid(ms) && AllNamed(ms, pairs)
  {
    if pairs == [] then codes
    else
      var m := FindMapping(ms, pairs[0].0, pairs[0].1);
      FoundIsValid(ms, pairs[0].0, pairs[0].1);
      FoldChain(ms, pairs[1..], doReverse, Step(m.value, doReverse, codes))
  }

  /** One point folded through the mapping of every pair. */
  function FoldPoint(ms: seq<Mapping>, pairs: seq<Pair>, doReverse: bool, x: nat): nat
    requires BuilderValid(ms) && AllNamed(ms, pairs)
  {
    if pairs == [] then x
    else
      var m := FindMapping(ms, pairs[0].0, pairs[0].1);
      FoundIsValid(ms, pairs[0].0, pairs[0].1);
      FoldPoint(ms, pairs[1..], doReverse, StepPoint(m.value, doReverse, x))
  }

  /** Folding a list is folding each point on its own: the length is kept and the
      `k`-th result depends on the `k`-th code only. */
  lemma {:induction false} FoldChainPointwise(ms: seq<Mapping>, pairs: seq<Pair>, doReverse: bool, codes: seq<nat>)
    requires BuilderValid(ms) && AllNamed(ms, pairs)
    ensures |FoldChain(ms, pairs, doReverse, codes)| == |codes|
    ensures forall k :: 0 <= k < |codes| ==>
              FoldChain(ms, pairs, doReverse, codes)[k] == FoldPoint(ms, pairs, doReverse, codes[k])
  {
    if pairs != [] {
      var m := FindMapping(ms, pairs[0].0, pairs[0].1);
      FoundIsValid(ms, pairs[0].0, pairs[0].1);
      var next := Step(m.value, doReverse, codes);
      assert AllNamed(ms, pairs[1..]);
      FoldChainPointwise(ms, pairs[1..], doReverse, next);
    }
  }

  /** What `MappingBuilder::map` computes. */
  function Translate(ms: seq<Mapping>, from: string, to: string, codes: seq<nat>): Result<seq<nat>>
    requires BuilderValid(ms)
  {
    InferCorrect(ms, from, to);
    match Infer(ms, from, to)
    case Found(s) => Ok(FoldChain(ms, s.pairs, s.doReverse, codes))
    case NoPath => Err("Could not find mappings")
    case Diverges => Err("the category walk does not terminate")
  }

  /** What `MappingBuilder::map` computes for a single point. */
  function TranslatePoint(ms: seq<Mapping>, from: string, to: string, x: nat): Option<nat>
    requires BuilderValid(ms)
  {
    InferCorrect(ms, from, to);
    match Infer(ms, from, to)
    case Found(s) => Some(FoldPoint(ms, s.pairs, s.doReverse, x))
    case _ => None
  }

  /** `MappingBuilder::map`: infer the strategy once, then move the whole list through
      each mapping of the chain in turn. */
  method BuilderMap(ms: seq<Mapping>, from: string, to: string, codes: seq<nat>) returns (r: Result<seq<nat>>)
    requires BuilderValid(ms)
    ensures r == Translate(ms, from, to, codes)
  {
    var inferred := InferMappingStrategy(ms, from, to);
    InferCorrect(ms, from, to);
    if inferred == NoPath {
      return Err("Could not find mappings");
    } else if inferred == Diverges {
      return Err("the category walk does not terminate");
    }
    var doReverse, mappings := inferred.strategy.doReverse, inferred.strategy.pairs;
    var current := codes;
    var i := 0;
    while i < |mappings|
      invariant 0 <= i <= |mappings|
      invariant FoldChain(ms, mappings, doReverse, codes) == FoldChain(ms, mappings[i..], doReverse, current)
    {
      var mapping := GetMapping(ms, mappings[i].0, mappings[i].1);
      FoldChainStep(ms, mappings, i, doReverse, current);
      current := if doReverse then MapManyReverse(mapping.value, current) else MapMany(mapping.value, current);
      i := i + 1;
    }
    assert mappings[i..] == [];
    r := Ok(current);
  }

  /** One turn of the loop in `map`: the mapping named by pair `i` exists, and moving
      the codes through it leaves the rest of the chain to fold. */
  lemma FoldChainStep(ms: seq<Mapping>, pairs: seq<Pair>, i: nat, doReverse: bool, codes: seq<nat>)
    requires BuilderValid(ms) && AllNamed(ms, pairs) && i < |pairs|
    ensures FindMapping(ms, pairs[i].0, pairs[i].1).Some?
    ensures EntriesValid(FindMapping(ms, pairs[i].0, pairs[i].1).value.entries)
    ensures FoldChain(ms, pairs[i..], doReverse, codes)
            == FoldChain(ms, pairs[i + 1..], doReverse,
                         Step(FindMapping(ms, pairs[i].0, pairs[i].1).value, doReverse, codes))
  {
    assert pairs[i..][0] == pairs[i];
    assert pairs[i..][1..] == pairs[i + 1..];
    AllNamedSuffix(ms, pairs, i);
    FoundIsValid(ms, pairs[i].0, pairs[i].1);
  }

  lemma AllNamedSuffix(ms: seq<Mapping>, pairs: seq<Pair>, i: nat)
    requires AllNamed(ms, pairs) && i <= |pairs|
    ensures AllNamed(ms, pairs[i..])
  {
    assert forall j :: 0 <= j < |pairs| - i ==> pairs[i..][j] == pairs[i + j];
  }

  /** `map` returns exactly as many codes as it was given, each moved on its own. */
  lemma TranslatePointwise(ms: seq<Mapping>, from: string, to: string, codes: seq<nat>)
    requires BuilderValid(ms)
    ensures Translate(ms, from, to, codes).Err? <==> !Infer(ms, from, to).Found?
    ensures Translate(ms, from, to, codes).Ok? ==>
              |Translate(ms, from, to, codes).value| == |codes|
              && forall k :: 0 <= k < |codes| ==>
                   Some(Translate(ms, from, to, codes).value[k]) == TranslatePoint(ms, from, to, codes[k])
  {
    InferCorrect(ms, from, to);
    if Infer(ms, from, to).Found? {
      var s := Infer(ms, from, to).strategy;
      FoldChainPointwise(ms, s.pairs, s.doReverse, codes);
    }
  }

  // ================================================================ get_seed_bottoms

  /** The number of rules over a list of mappings. */
  function EntryCount(ms: seq<Mapping>): nat {
    if ms == [] then 0 else |ms[0].entries| + EntryCount(ms[1..])
  }

  /** The destination starts of each mapping in `todo`, moved to the "seed" category,
      one list after the other; the first failure stops the whole. */
  function SeedBottomsOf(ms: seq<Mapping>, todo: seq<Mapping>): Result<seq<nat>>
    requires BuilderValid(ms)
  {
    if todo == [] then Ok([])
    else match Translate(ms, todo[0].destination, "seed", DestBottoms(todo[0]))
      case Err(e) => Err(e)
      case Ok(v) =>
        match SeedBottomsOf(ms, todo[1..])
        case Err(e) => Err(e)
        case Ok(w) => Ok(v + w)
  }

  function PrependTo(v: seq<nat>, r: Result<seq<nat>>): Result<seq<nat>> {
    match r
    case Ok(w) => Ok(v + w)
    case Err(e) => Err(e)
  }

  /** One mapping's turn: its own seed codes are appended, or its failure is the
      result. */
  lemma SeedBottomsStep(ms: seq<Mapping>, todo: seq<Mapping>, acc: seq<nat>, mapped: Result<seq<nat>>)
    requires BuilderValid(ms) && todo != []
    requires mapped == Translate(ms, todo[0].destination, "seed", DestBottoms(todo[0]))
    ensures PrependTo(acc, SeedBottomsOf(ms, todo))
            == if mapped.Err? then Err(mapped.reason)
               else PrependTo(acc + mapped.value, SeedBottomsOf(ms, todo[1..]))
  {
    if mapped.Ok? {
      PrependAssoc(acc, mapped.value, SeedBottomsOf(ms, todo[1..]));
    }
  }

  lemma PrependAssoc(a: seq<nat>, b: seq<nat>, r: Result<seq<nat>>)
    ensures PrependTo(a, PrependTo(b, r)) == PrependTo(a + b, r)
  {
    if r.Ok? {
      assert a + (b + r.value) == (a + b) + r.value;
    }
  }

  lemma PrependNothing(r: Result<seq<nat>>)
    ensures PrependTo([], r) == r
  {
    if r.Ok? {
      assert [] + r.value == r.value;
    }
  }

  /** `MappingBuilder::get_seed_bottoms`: every rule's destination start, moved back to
      the "seed" category through that mapping's own chain, appended in mapping order. */
  method GetSeedBottoms(ms: seq<Mapping>) returns (r: Result<seq<nat>>)
    requires BuilderValid(ms)
    ensures r == SeedBottomsOf(ms, ms)
  {
    var bottoms: seq<nat> := [];
    PrependNothing(SeedBottomsOf(ms, ms));
    assert ms[0..] == ms;
    var i := 0;
    while i < |ms|
      invariant 0 <= i <= |ms|
      invariant SeedBottomsOf(ms, ms) == PrependTo(bottoms, SeedBottomsOf(ms, ms[i..]))
    {
      var mappingBottoms := DestBottoms(ms[i]);
      var mapped := BuilderMap(ms, ms[i].destination, "seed", mappingBottoms);
      var todo := ms[i..];
      assert todo[0] == ms[i] && todo[1..] == ms[i + 1..];
      SeedBottomsStep(ms, todo, bottoms, mapped);
      if mapped.Err? {
        return Err(mapped.reason);
      }
      bottoms := bottoms + mapped.value;
      i := i + 1;
    }
    assert ms[i..] == [] && bottoms + [] == bottoms;
    return Ok(bottoms);
  }

  /** When nothing fails there is exactly one seed code per rule. */
  lemma {:induction false} SeedBottomsCount(ms: seq<Mapping>, todo: seq<Mapping>)
    requires BuilderValid(ms) && SeedBottomsOf(ms, todo).Ok?
    ensures |SeedBottomsOf(ms, todo).value| == EntryCount(todo)
  {
    if todo != [] {
      SeedBottomsCount(ms, todo[1..]);
      InferCorrect(ms, todo[0].destination, "seed");
      var s := Infer(ms, todo[0].destination, "seed").strategy;
      FoldChainPointwise(ms, s.pairs, s.doReverse, DestBottoms(todo[0]));
    }
  }

  // ================================================================ SeedList / VirtualRange

  datatype VirtualRange = VirtualRange(start: nat, length: nat)

  /** `VirtualRange::is_within_range`: `start <= point < start + length`. */
  predicate IsWithinRange(r: VirtualRange, point: nat) {
    point >= r.start && point < r.start + r.length
  }

  /** The ranges the seed numbers stand for: consecutive (start, length) pairs; an odd
      last number makes a range whose start and length are both that number. */
  function SeedRanges(codes: seq<nat>): (r: seq<VirtualRange>)
    ensures |r| == (|codes| + 1) / 2
    ensures forall k :: 0 <= k < |r| ==>
              r[k] == VirtualRange(codes[2 * k], codes[if 2 * k + 1 < |codes| then 2 * k + 1 else 2 * k])
    decreases |codes|
  {
    if |codes| == 0 then []
    else if |codes| == 1 then [VirtualRange(codes[0], codes[0])]
    else
      var rest := SeedRanges(codes[2..]);
      assert forall k :: 1 <= k < |rest| + 1 ==> codes[2..][2 * (k - 1)] == codes[2 * k];
      [VirtualRange(codes[0], codes[1])] + rest
  }

  function PairEnd(n: nat, k: nat): nat {
    if 2 * k + 2 <= n then 2 * k + 2 else n
  }

  lemma {:induction false} NestPairsLength(v: seq<nat>)
    ensures |NestVector(v, 2)| == (|v| + 1) / 2
    decreases |v|
  {
    if |v| > 2 {
      NestPairsLength(v[2..]);
    }
  }

  /** The `k`-th chunk of a nesting by two is `v[2k..2k+2]`, cut short at the end. */
  lemma {:induction false} NestPairAt(v: seq<nat>, k: nat)
    requires k < |NestVector(v, 2)|
    ensures 2 * k < PairEnd(|v|, k) <= |v| && NestVector(v, 2)[k] == v[2 * k..PairEnd(|v|, k)]
    decreases k
  {
    if |v| <= 2 {
      assert NestVector(v, 2) == [v];
      assert v[0..|v|] == v;
    } else {
      var rest := NestVector(v[2..], 2);
      assert NestVector(v, 2) == [v[..2]] + rest;
      if k == 0 {
        assert NestVector(v, 2)[0] == v[..2];
      } else {
        assert NestVector(v, 2)[k] == rest[k - 1];
        NestPairAt(v[2..], k - 1);
        var e := PairEnd(|v| - 2, k - 1);
        assert e + 2 == PairEnd(|v|, k);
        SliceShift(v, 2, 2 * (k - 1), e);
      }
    }
  }

  lemma SliceShift(v: seq<nat>, d: nat, i: nat, j: nat)
    requires d <= |v| && i <= j <= |v| - d
    ensures v[d..][i..j] == v[i + d..j + d]
  {
  }

  /** `SeedList::get_ranges`: one range per chunk of `nest_vector(codes, 2)`, its first
      number the start and its last number the length. */
  method GetRanges(codes: seq<nat>) returns (ranges: seq<VirtualRange>)
    ensures ranges == SeedRanges(codes)
  {
    var pairs := NestVector(codes, 2);
    NestPairsLength(codes);
    ranges := [];
    var i := 0;
    while i < |pairs|
      invariant 0 <= i <= |pairs| && |ranges| == i
      invariant forall k :: 0 <= k < i ==> ranges[k] == SeedRanges(codes)[k]
    {
      NestPairAt(codes, i);
      var start := pairs[i][0];
      var length := pairs[i][|pairs[i]| - 1];
      assert VirtualRange(start, length) == SeedRanges(codes)[i];
      ranges := ranges + [VirtualRange(start, length)];
      i := i + 1;
    }
  }

  /** Some seed range holds `seed`. */
  predicate WithinList(codes: seq<nat>, seed: nat) {
    exists k :: 0 <= k < |SeedRanges(codes)| && IsWithinRange(SeedRanges(codes)[k], seed)
  }

  /** `SeedList::is_within_list`: some range of the list holds the seed. */
  method IsWithinList(codes: seq<nat>, seed: nat) returns (b: bool)
    ensures b <==> WithinList(codes, seed)
  {
    var ranges := GetRanges(codes);
    var i := 0;
    while i < |ranges|
      invariant 0 <= i <= |ranges|
      invariant forall k :: 0 <= k < i ==> !IsWithinRange(ranges[k], seed)
    {
      if IsWithinRange(ranges[i], seed) {
        return true;
      }
      i := i + 1;
    }
    return false;
  }

  /** For a list of (start, length) pairs, membership is the plain interval test on
      some pair. */
  lemma WithinListOfPairs(codes: seq<nat>, seed: nat)
    requires |codes| % 2 == 0
    ensures (exists k :: 0 <= k < |SeedRanges(codes)| && IsWithinRange(SeedRanges(codes)[k], seed))
            <==> exists k :: 0 <= k < |codes| / 2 && codes[2 * k] <= seed < codes[2 * k] + codes[2 * k + 1]
  {
    var r := SeedRanges(codes);
    if exists k :: 0 <= k < |codes| / 2 && codes[2 * k] <= seed < codes[2 * k] + codes[2 * k + 1] {
      var k :| 0 <= k < |codes| / 2 && codes[2 * k] <= seed < codes[2 * k] + codes[2 * k + 1];
      assert IsWithinRange(r[k], seed);
    }
  }

  // ================================================================ seeds (lines 13-20)

  /** The candidates that lie in some seed range, order and repeats kept. */
  function KeepWithin(codes: seq<nat>, candidates: seq<nat>): (r: seq<nat>)
    ensures |r| <= |candidates|
  {
    if candidates == [] then []
    else
      var x := candidates[|candidates| - 1];
      KeepWithin(codes, candidates[..|candidates| - 1]) + (if WithinList(codes, x) then [x] else [])
  }

  /** Only candidates in some seed range are kept, and every such candidate is. */
  lemma {:induction false} KeepWithinSound(codes: seq<nat>, candidates: seq<nat>)
    ensures forall x :: x in KeepWithin(codes, candidates) <==> x in candidates && WithinList(codes, x)
  {
    if candidates != [] {
      var init, x := candidates[..|candidates| - 1], candidates[|candidates| - 1];
      KeepWithinSound(codes, init);
      assert candidates == init + [x];
    }
  }

  lemma KeepWithinPrefix(codes: seq<nat>, c: seq<nat>, i: nat)
    requires i < |c|
    ensures KeepWithin(codes, c[..i + 1])
            == KeepWithin(codes, c[..i]) + (if WithinList(codes, c[i]) then [c[i]] else [])
  {
    assert c[..i + 1][..i] == c[..i];
  }

  /** The rule boundaries moved back to seeds, kept when they lie in a seed range, and
      moved forward to locations: the candidates for the closest real location. */
  method RealLocations(codes: seq<nat>, ms: seq<Mapping>) returns (r: Result<seq<nat>>)
    requires BuilderValid(ms)
    ensures SeedBottomsOf(ms, ms).Err? ==> r == Err(SeedBottomsOf(ms, ms).reason)
    ensures SeedBottomsOf(ms, ms).Ok? ==>
              r == Translate(ms, "seed", "location", KeepWithin(codes, SeedBottomsOf(ms, ms).value))
  {
    var bottoms := GetSeedBottoms(ms);
    if bottoms.Err? {
      return Err(bottoms.reason);
    }
    var vs := bottoms.value;
    var seedBottoms: seq<nat> := [];
    var i := 0;
    while i < |vs|
      invariant 0 <= i <= |vs|
      invariant seedBottoms == KeepWithin(codes, vs[..i])
    {
      var keep := IsWithinList(codes, vs[i]);
      KeepWithinPrefix(codes, vs, i);
      if keep {
        seedBottoms := seedBottoms + [vs[i]];
      }
      i := i + 1;
    }
    assert vs[..i] == vs;
    r := BuilderMap(ms, "seed", "location", seedBottoms);
  }
}
