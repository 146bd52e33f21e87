/** day_8.rs: a network of nodes, each with a left and a right neighbour, walked by
    repeating a list of left/right instructions. A line `AAA = (BBB, CCC)` is one node. */
module HauntedWasteland {
  import opened Wrappers
  import opened Text
  import opened Utils

  datatype Direction = Left | Right

  /** Every code with its left and its right neighbour. */
  datatype Network = Network(nodes: map<string, (string, string)>)

  // ---------------------------------------------------------------- Directions::from_str

  function DirectionOf(c: char): (r: Result<Direction>)
    ensures r.Ok? <==> c == 'L' || c == 'R'
  {
    if c == 'L' then Ok(Left) else if c == 'R' then Ok(Right) else Err("Invalid char")
  }

  /** `Directions::from_str`: the trimmed text, one direction per character; any
      character other than 'L' and 'R' panics. */
  function ParseDirections(s: string): (r: Result<seq<Direction>>)
    ensures r.Ok? <==> forall k :: 0 <= k < |Trim(s)| ==> Trim(s)[k] == 'L' || Trim(s)[k] == 'R'
    ensures r.Ok? ==> |r.value| == |Trim(s)|
                      && forall k :: 0 <= k < |Trim(s)| ==> r.value[k] == (if Trim(s)[k] == 'L' then Left else Right)
  {
    var t := Trim(s);
    var rs := seq(|t|, k requires 0 <= k < |t| => DirectionOf(t[k]));
    assert forall k :: 0 <= k < |t| ==> rs[k] == DirectionOf(t[k]);
    AllOk(rs)
  }

  function Letter(d: Direction): char {
    match d
    case Left => 'L'
    case Right => 'R'
  }

  function DirectionsText(ds: seq<Direction>): (s: string)
    ensures |s| == |ds| && forall k :: 0 <= k < |ds| ==> s[k] == Letter(ds[k])
  {
    seq(|ds|, k requires 0 <= k < |ds| => Letter(ds[k]))
  }

  /** Directions written as their letters read back as the same directions. */
  lemma DirectionsRoundTrip(ds: seq<Direction>)
    ensures ParseDirections(DirectionsText(ds)) == Ok(ds)
  {
    var s := DirectionsText(ds);
    TrimOfTrimmed(s);
    var rs := seq(|s|, k requires 0 <= k < |s| => DirectionOf(s[k]));
    forall k | 0 <= k < |s| ensures rs[k] == Ok(ds[k]) {
      match ds[k] {
        case Left =>
        case Right =>
      }
    }
    AllOkOf(rs, ds);
  }

  // ---------------------------------------------------------------- Network::from_lines

  /** One line of the network: the key is the first '='-separated piece; the last
      piece, stripped of its first and last character, is split at ',' into the two
      neighbours. A line without pieces, a last piece shorter than two characters or
      nothing between the brackets panics. */
  function NodeOf(line: string): (r: Result<(string, (string, string))>)
    ensures r.Ok? ==> Split(line, {'='}) != [] && r.value.0 == Split(line, {'='})[0]
  {
    var sections := Split(line, {'='});
    if sections == [] then Err("no key")
    else
      var last := sections[|sections| - 1];
      if |last| < 2 then Err("slice out of range")
      else
        var options := Split(last[1..|last| - 1], {','});
        if options == [] then Err("no options")
        else Ok((sections[0], (options[0], options[|options| - 1])))
  }

  /** The table `from_lines` builds: one entry per line in order, a later line
      replacing an earlier one with the same key. */
  function NetworkOf(lines: seq<string>): Result<Network> {
    if lines == [] then Ok(Network(map[]))
    else
      match NetworkOf(lines[..|lines| - 1])
      case Err(e) => Err(e)
      case Ok(net) =>
        match NodeOf(lines[|lines| - 1])
        case Err(e) => Err(e)
        case Ok(node) => Ok(Network(net.nodes[node.0 := node.1]))
  }

  /** `Network::from_lines`. */
  method FromLines(lines: seq<string>) returns (r: Result<Network>)
    ensures r == NetworkOf(lines)
  {
    var table: map<string, (string, string)> := map[];
    var i := 0;
    while i < |lines|
      invariant 0 <= i <= |lines|
      invariant NetworkOf(lines[..i]) == Ok(Network(table))
    {
      assert lines[..i + 1][..i] == lines[..i] && lines[..i + 1][i] == lines[i];
      var node := NodeOf(lines[i]);
      if node.Err? {
        NetworkErrSticky(lines, i + 1);
        return Err(node.reason);
      }
      table := table[node.value.0 := node.value.1];
      i := i + 1;
    }
    assert lines[..i] == lines;
    return Ok(Network(table));
  }

  /** A line that does not parse makes every longer input fail. */
  lemma {:induction false} NetworkErrSticky(lines: seq<string>, n: nat)
    requires n <= |lines| && NetworkOf(lines[..n]).Err?
    ensures NetworkOf(lines) == NetworkOf(lines[..n])
    decreases |lines| - n
  {
    if n < |lines| {
      assert lines[..n + 1][..n] == lines[..n];
      NetworkErrSticky(lines, n + 1);
      assert NetworkOf(lines[..n + 1]) == NetworkOf(lines[..n]);
    } else {
      assert lines[..n] == lines;
    }
  }

  // ---------------------------------------------------------------- printing the network

  /** The two neighbours in brackets, `(BBB, CCC)`. */
  function Paren(left: string, right: string): string {
    "(" + (left + [','] + (" " + right)) + ")"
  }

  /** A node written as in the puzzle input, `AAA = (BBB, CCC)`. */
  function NodeText(key: string, left: string, right: string): string {
    (key + " ") + ['='] + (" " + Paren(left, right))
  }

  /** A code that can be written into a node line and read back. */
  predicate Code(s: string) {
    Tidy(s) && Free(s, {'=', ','})
  }

  lemma ParenShape(left: string, right: string)
    requires Code(left) && Code(right)
    ensures Tidy(Paren(left, right)) && Free(" " + Paren(left, right), {'='})
    ensures Free(left, {','}) && Free(" " + right, {','})
  {
    var p := Paren(left, right);
    assert p[0] == '(' && p[|p| - 1] == ')';
    FreeConcat(" ", right, {','});
    FreeConcat(left, [','], {'='});
    FreeConcat(" ", right, {'='});
    FreeConcat(left + [','], " " + right, {'='});
    FreeConcat("(", left + [','] + (" " + right), {'='});
    FreeConcat("(" + (left + [','] + (" " + right)), ")", {'='});
    FreeConcat(" ", p, {'='});
  }

  /** The neighbours between the brackets. */
  lemma InnerOptions(left: string, right: string)
    requires Code(left) && Code(right)
    ensures var p := Paren(left, right); Split(p[1..|p| - 1], {','}) == [left, right]
  {
    var p := Paren(left, right);
    assert p[1..|p| - 1] == left + [','] + (" " + right);
    ParenShape(left, right);
    SplitTwo(left, ',', " " + right);
    TrimOfTrimmed(left);
    TrimSpaced(right);
  }

  /** A node written out reads back as its key and its two neighbours. */
  lemma NodeRoundTrip(key: string, left: string, right: string)
    requires Tidy(key) && Free(key, {'='}) && Code(left) && Code(right)
    ensures NodeOf(NodeText(key, left, right)) == Ok((key, (left, right)))
  {
    var p := Paren(left, right);
    ParenShape(left, right);
    FreeConcat(key, " ", {'='});
    SplitTwo(key + " ", '=', " " + p);
    TrimSpaceAfter(key);
    TrimSpaced(p);
    assert Split(NodeText(key, left, right), {'='}) == [key, p];
    InnerOptions(left, right);
  }

  /** The table a list of nodes makes when they are inserted in order. */
  function NodeMap(nodes: seq<(string, (string, string))>): map<string, (string, string)> {
    if nodes == [] then map[]
    else NodeMap(nodes[..|nodes| - 1])[nodes[|nodes| - 1].0 := nodes[|nodes| - 1].1]
  }

  /** Its keys are exactly the nodes' keys. */
  lemma {:induction false} NodeMapKeys(nodes: seq<(string, (string, string))>)
    ensures forall k :: k in NodeMap(nodes) <==> exists i :: 0 <= i < |nodes| && nodes[i].0 == k
  {
    if nodes != [] {
      var init := nodes[..|nodes| - 1];
      NodeMapKeys(init);
      assert forall i :: 0 <= i < |init| ==> init[i] == nodes[i];
    }
  }

  /** A key holds the neighbours of the last node that names it. */
  lemma {:induction false} NodeMapLast(nodes: seq<(string, (string, string))>, i: nat)
    requires i < |nodes| && forall j :: i < j < |nodes| ==> nodes[j].0 != nodes[i].0
    ensures nodes[i].0 in NodeMap(nodes) && NodeMap(nodes)[nodes[i].0] == nodes[i].1
  {
    if i < |nodes| - 1 {
      var init := nodes[..|nodes| - 1];
      assert init[i] == nodes[i];
      assert forall j :: i < j < |init| ==> init[j] == nodes[j];
      NodeMapLast(init, i);
    }
  }

  function NodeTexts(nodes: seq<(string, (string, string))>): (r: seq<string>)
    ensures |r| == |nodes|
    ensures forall k :: 0 <= k < |nodes| ==> r[k] == NodeText(nodes[k].0, nodes[k].1.0, nodes[k].1.1)
  {
    seq(|nodes|, k requires 0 <= k < |nodes| => NodeText(nodes[k].0, nodes[k].1.0, nodes[k].1.1))
  }

  predicate Writable(nodes: seq<(string, (string, string))>) {
    forall k :: 0 <= k < |nodes| ==>
      Tidy(nodes[k].0) && Free(nodes[k].0, {'='}) && Code(nodes[k].1.0) && Code(nodes[k].1.1)
  }

  /** The lines of a list of nodes build the table of those nodes inserted in order. */
  lemma {:induction false} NetworkOfNodes(nodes: seq<(string, (string, string))>)
    requires Writable(nodes)
    ensures NetworkOf(NodeTexts(nodes)) == Ok(Network(NodeMap(nodes)))
  {
    if nodes != [] {
      var init, last := nodes[..|nodes| - 1], nodes[|nodes| - 1];
      var lines := NodeTexts(nodes);
      assert lines[..|lines| - 1] == NodeTexts(init);
      assert Writable(init) by {
        assert forall k :: 0 <= k < |init| ==> init[k] == nodes[k];
      }
      NetworkOfNodes(init);
      NodeRoundTrip(last.0, last.1.0, last.1.1);
    }
  }

  // ---------------------------------------------------------------- Network::map and codes

  /** `Network::map`: the left or the right neighbour; `None` for the panic on a code
      that is not in the network. */
  function Step(network: Network, code: string, direction: Direction): (r: Option<string>)
    ensures r.Some? <==> code in network.nodes
    ensures r.Some? ==> r.value == if direction == Left then network.nodes[code].0 else network.nodes[code].1
  {
    if code !in network.nodes then None
    else
      var (left, right) := network.nodes[code];
      match direction
      case Left => Some(left)
      case Right => Some(right)
  }

  /** `get_codes_ending_with`: the codes of the network whose last character is
      `c`, as a set since the order of the table's keys is unspecified. */
  function CodesEndingWith(network: Network, c: char): (r: set<string>)
    ensures r <= network.nodes.Keys
    ensures forall k :: k in r <==> k in network.nodes && EndsWith(k, c)
  {
    set k | k in network.nodes && EndsWith(k, c)
  }

  /** A code ends with one character only: the start and end codes of two different
      letters never overlap. */
  lemma CodesEndingApart(network: Network, c: char, d: char)
    requires c != d
    ensures CodesEndingWith(network, c) !! CodesEndingWith(network, d)
  {
  }

  // ---------------------------------------------------------------- Directions::map

  /** The node reached after `n` steps from `from`, step `i` following direction
      `i mod |directions|`; `None` once a step leaves the network. */
  function After(directions: seq<Direction>, network: Network, from: string, n: nat): Option<string>
    requires directions != []
  {
    if n == 0 then Some(from)
    else
      match After(directions, network, from, n - 1)
      case None => None
      case Some(code) => Step(network, code, directions[(n - 1) % |directions|])
  }

  /** After `i` steps the walk is still on the network and not yet at a target. */
  predicate Pending(directions: seq<Direction>, network: Network, from: string, to: seq<string>, i: nat)
    requires directions != []
  {
    After(directions, network, from, i).Some? && After(directions, network, from, i).value !in to
  }

  /** `n` steps reach a target for the first time. */
  predicate FirstArrival(directions: seq<Direction>, network: Network, from: string, to: seq<string>, n: nat)
    requires directions != []
  {
    After(directions, network, from, n).Some? && After(directions, network, from, n).value in to
    && forall i :: 0 <= i < n ==> Pending(directions, network, from, to, i)
  }

  datatype Outcome =
    | Arrived(steps: nat)
    | DivideByZero       // an empty direction list: `index % 0` panics
    | UnknownCode(steps: nat)  // the code reached after `steps` steps is not in the network
    | OutOfFuel          // no target within the step bound

  /** `Directions::map`: the number of steps until the walk stands on one of `to`.
      The source loops for ever when no target is ever reached; here the walk gives
      up after `fuel` steps. */
  method Walk(directions: seq<Direction>, from: string, to: seq<string>, network: Network, fuel: nat)
    returns (r: Outcome)
    ensures directions == [] <==> r == DivideByZero
    ensures r.Arrived? ==> r.steps <= fuel && FirstArrival(directions, network, from, to, r.steps)
    ensures r.UnknownCode? ==> (r.steps <= fuel && directions != []
              && (forall i :: 0 <= i <= r.steps ==> Pending(directions, network, from, to, i))
              && After(directions, network, from, r.steps + 1).None?)
    ensures r.OutOfFuel? ==> (directions != []
              && forall i :: 0 <= i <= fuel ==> Pending(directions, network, from, to, i))
  {
    if |directions| == 0 {
      return DivideByZero;
    }
    var index := 0;
    var lastDestination := from;
    while true
      invariant index <= fuel
      invariant After(directions, network, from, index) == Some(lastDestination)
      invariant forall i :: 0 <= i < index ==> Pending(directions, network, from, to, i)
      decreases fuel - index
    {
      var direction := directions[index % |directions|];
      if lastDestination in to {
        return Arrived(index);
      }
      if index == fuel {
        return OutOfFuel;
      }
      var next := Step(network, lastDestination, direction);
      if next.None? {
        return UnknownCode(index);
      }
      lastDestination := next.value;
      index := index + 1;
    }
  }

  /** Once the walk has left the network it stays off it. */
  lemma {:induction false} AfterNoneSticky(directions: seq<Direction>, network: Network, from: string, m: nat, n: nat)
    requires directions != [] && m <= n && After(directions, network, from, m).None?
    ensures After(directions, network, from, n).None?
    decreases n - m
  {
    if m < n {
      AfterNoneSticky(directions, network, from, m, n - 1);
    }
  }

  /** The first arrival is unique: `Walk` can only ever report one step count. */
  lemma FirstArrivalUnique(directions: seq<Direction>, network: Network, from: string, to: seq<string>, m: nat, n: nat)
    requires directions != []
    requires FirstArrival(directions, network, from, to, m) && FirstArrival(directions, network, from, to, n)
    ensures m == n
  {
    assert !Pending(directions, network, from, to, m) && !Pending(directions, network, from, to, n);
  }

  /** A start node that is already a target is reached in 0 steps. */
  lemma ArrivedAtStart(directions: seq<Direction>, network: Network, from: string, to: seq<string>)
    requires directions != [] && from in to
    ensures FirstArrival(directions, network, from, to, 0)
  {
  }

  /** When a walk of `n` steps reaches a target first, `Walk` with that many steps
      of fuel or more reports exactly `n`. */
  lemma WalkComplete(directions: seq<Direction>, network: Network, from: string, to: seq<string>,
                     fuel: nat, n: nat, r: Outcome)
    requires directions != [] && n <= fuel && FirstArrival(directions, network, from, to, n)
    requires r.Arrived? ==> FirstArrival(directions, network, from, to, r.steps)
    requires r.UnknownCode? ==> ((forall i :: 0 <= i <= r.steps ==> Pending(directions, network, from, to, i))
              && After(directions, network, from, r.steps + 1).None?)
    requires r.OutOfFuel? ==> forall i :: 0 <= i <= fuel ==> Pending(directions, network, from, to, i)
    requires r != DivideByZero
    ensures r == Arrived(n)
  {
    assert !Pending(directions, network, from, to, n);
    match r {
      case Arrived(m) =>
        FirstArrivalUnique(directions, network, from, to, m, n);
      case UnknownCode(s) =>
        if s < n {
          AfterNoneSticky(directions, network, from, s + 1, n);
        }
      case OutOfFuel =>
    }
  }

  lemma MulAtLeast(len: nat, m: int)
    requires len > 0 && m >= 1
    ensures len * m >= len
  {
  }

  /** `x mod len` is the one remainder in `[0, len)` left by a multiple of `len`. */
  lemma ModUnique(x: int, len: nat, k: int, r: int)
    requires len > 0 && x == len * k + r && 0 <= r < len
    ensures x % len == r
  {
    var q := x / len;
    if k > q {
      MulAtLeast(len, k - q);
    } else if q > k {
      MulAtLeast(len, q - k);
    }
  }

  lemma {:induction false} ModShift(a: nat, len: nat, q: nat)
    requires len > 0
    ensures (a + len * q) % len == a % len
  {
    if q > 0 {
      ModShift(a, len, q - 1);
      var b := a + len * (q - 1);
      assert a + len * q == b + len;
      ModUnique(b + len, len, b / len + 1, b % len);
    }
  }

  /** A walk that comes back to its start after a whole number of passes through
      the directions repeats itself with that period. */
  lemma {:induction false} WalkPeriodic(directions: seq<Direction>, network: Network, from: string, q: nat, n: nat)
    requires directions != []
    requires After(directions, network, from, |directions| * q) == Some(from)
    ensures After(directions, network, from, n + |directions| * q) == After(directions, network, from, n)
  {
    var p := |directions| * q;
    if n > 0 {
      WalkPeriodic(directions, network, from, q, n - 1);
      ModShift(n - 1, |directions|, q);
      assert (n + p - 1) % |directions| == (n - 1) % |directions|;
    }
  }
}
