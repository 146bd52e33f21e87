/** utils.rs: `into_lines` and `sum`, plus the helpers the puzzle files import from
    `crate::utils` that are not part of this model (`split`, `collect_numbers`,
    `nest_vector`, `min`, `max`, `mul`, `safe_sub`). Each of those is given a body
    here that states the contract this model ASSUMES for it; the assumption is
    written in its doc comment. */
module Utils {
  import opened Wrappers
  import opened Text

  /** A line as `into_lines` hands it out: not empty, no whitespace at either end. */
  predicate Tidy(line: string) {
    line != [] && !IsWhitespace(line[0]) && !IsWhitespace(line[|line| - 1])
  }

  /** Each piece trimmed, the empty ones dropped, order kept. */
  function NonBlank(pieces: seq<string>): (r: seq<string>)
    ensures |r| <= |pieces|
    ensures forall k :: 0 <= k < |r| ==> Tidy(r[k])
  {
    if pieces == [] then [] else Kept(pieces[0]) + NonBlank(pieces[1..])
  }

  /** One piece trimmed, or nothing when it is blank. */
  function Kept(piece: string): (r: seq<string>)
    ensures r == [] || (|r| == 1 && Tidy(r[0]))
  {
    var t := Trim(piece);
    if t != [] then [t] else []
  }

  /** `into_lines`: split at '\n', trim every piece, drop the empty ones.
      Every line it returns is non-empty, has no whitespace at either end and
      holds no '\n'. */
  function IntoLines(input: string): (lines: seq<string>)
    ensures forall k :: 0 <= k < |lines| ==> Tidy(lines[k]) && Free(lines[k], {'\n'})
  {
    var pieces := SplitOn(input, {'\n'});
    SplitOnFree(input, {'\n'});
    NonBlankFree(pieces, {'\n'});
    NonBlank(pieces)
  }

  lemma {:induction false} NonBlankFree(pieces: seq<string>, seps: set<char>)
    requires forall k :: 0 <= k < |pieces| ==> Free(pieces[k], seps)
    ensures forall k :: 0 <= k < |NonBlank(pieces)| ==> Free(NonBlank(pieces)[k], seps)
  {
    if pieces != [] {
      assert forall k :: 0 <= k < |pieces| - 1 ==> pieces[1..][k] == pieces[k + 1];
      NonBlankFree(pieces[1..], seps);
      KeptFree(pieces[0], seps);
      AllFreeConcat(Kept(pieces[0]), NonBlank(pieces[1..]), seps);
    }
  }

  predicate AllFree(ps: seq<string>, seps: set<char>) {
    forall k :: 0 <= k < |ps| ==> Free(ps[k], seps)
  }

  lemma AllFreeConcat(x: seq<string>, y: seq<string>, seps: set<char>)
    requires AllFree(x, seps) && AllFree(y, seps)
    ensures AllFree(x + y, seps)
  {
    forall k | 0 <= k < |x + y| ensures Free((x + y)[k], seps) {
      if k < |x| { assert (x + y)[k] == x[k]; } else { assert (x + y)[k] == y[k - |x|]; }
    }
  }

  /** Trimming adds no character. */
  lemma KeptFree(piece: string, seps: set<char>)
    requires Free(piece, seps)
    ensures forall k :: 0 <= k < |Kept(piece)| ==> Free(Kept(piece)[k], seps)
  {
    var t := Trim(piece);
    var i := TrimInfix(piece);
    assert forall j :: 0 <= j < |t| ==> t[j] == piece[i + j];
    assert Free(t, seps);
  }

  lemma {:induction false} NonBlankAppend(a: seq<string>, b: seq<string>)
    ensures NonBlank(a + b) == NonBlank(a) + NonBlank(b)
  {
    if a == [] {
      assert a + b == b;
    } else {
      var rest := a[1..] + b;
      assert a + b == [a[0]] + rest;
      assert a == [a[0]] + a[1..];
      NonBlankCons(a[0], rest);
      NonBlankCons(a[0], a[1..]);
      NonBlankAppend(a[1..], b);
      AppendAssoc(Kept(a[0]), NonBlank(a[1..]), NonBlank(b));
    }
  }

  lemma NonBlankCons(p: string, rest: seq<string>)
    ensures NonBlank([p] + rest) == Kept(p) + NonBlank(rest)
  {
    assert ([p] + rest)[1..] == rest;
  }

  lemma AppendAssoc<T>(x: seq<T>, y: seq<T>, z: seq<T>)
    ensures x + (y + z) == (x + y) + z
  {
  }

  lemma {:induction false} NonBlankOfTidy(lines: seq<string>)
    requires forall k :: 0 <= k < |lines| ==> Tidy(lines[k])
    ensures NonBlank(lines) == lines
  {
    if lines != [] {
      TrimOfTrimmed(lines[0]);
      NonBlankOfTidy(lines[1..]);
    }
  }

  /** A tidy text with one space in front trims back to itself. */
  lemma TrimSpaced(t: string)
    requires Tidy(t)
    ensures Trim(" " + t) == t
  {
    assert (" " + t)[1..] == t;
    assert TrimStart(" " + t) == TrimStart(t) == t;
  }

  /** A tidy text with one space after it trims back to itself. */
  lemma TrimSpaceAfter(t: string)
    requires Tidy(t)
    ensures Trim(t + " ") == t
  {
    assert (t + " ")[..|t|] == t;
    assert TrimEnd(t + " ") == TrimEnd(t) == t;
  }

  /** The two pieces `Split` keeps from two tidy-making pieces. */
  lemma NonBlankPair(a: string, b: string)
    ensures NonBlank([a, b]) == Kept(a) + Kept(b)
  {
    assert [a, b][1..] == [b];
    assert NonBlank([b]) == Kept(b) + NonBlank([]);
  }

  /** Splitting at the only separator `c`, trimming and dropping empty pieces leaves
      the two sides, trimmed. */
  lemma SplitTwo(a: string, c: char, b: string)
    requires Free(a, {c}) && Free(b, {c})
    ensures Split(a + [c] + b, {c}) == Kept(a) + Kept(b)
  {
    SplitConcat(a, c, b, {c});
    SplitWithout(a, {c});
    SplitWithout(b, {c});
    NonBlankPair(a, b);
  }

  /** Numbers in decimal, in order. */
  function Shows(xs: seq<nat>): (r: seq<string>)
    ensures |r| == |xs| && forall k :: 0 <= k < |xs| ==> r[k] == ShowNat(xs[k])
  {
    if xs == [] then []
    else
      var rest := Shows(xs[1..]);
      assert forall k :: 1 <= k < |xs| ==> xs[k] == xs[1..][k - 1];
      [ShowNat(xs[0])] + rest
  }

  /** Numbers written in decimal, one space between two of them. */
  function NumbersText(xs: seq<nat>): string {
    Join(Shows(xs), ' ')
  }

  /** Characters none of which is a decimal digit. */
  predicate NoDigit(seps: set<char>) {
    forall c :: c in seps ==> !IsDigit(c)
  }

  /** A non-empty run of digits is tidy and holds none of the non-digit separators. */
  lemma DigitsOnly(s: string, seps: set<char>)
    requires s != [] && AllDigits(s) && NoDigit(seps)
    ensures Tidy(s) && Free(s, seps)
  {
  }

  lemma {:induction false} JoinFree(ps: seq<string>, c: char, seps: set<char>)
    requires c !in seps
    requires forall k :: 0 <= k < |ps| ==> Free(ps[k], seps)
    ensures Free(Join(ps, c), seps)
  {
    if |ps| > 1 {
      JoinFree(ps[1..], c, seps);
      FreeConcat(ps[0], [c], seps);
      FreeConcat(ps[0] + [c], Join(ps[1..], c), seps);
    }
  }

  /** Tidy pieces joined make a tidy text. */
  lemma {:induction false} JoinEnds(ps: seq<string>, c: char)
    requires |ps| >= 1 && forall k :: 0 <= k < |ps| ==> Tidy(ps[k])
    ensures Tidy(Join(ps, c))
  {
    if |ps| > 1 {
      JoinEnds(ps[1..], c);
      var t := Join(ps[1..], c);
      assert Join(ps, c) == ps[0] + [c] + t;
    }
  }

  /** Numbers written out are tidy and hold no separator other than digits and ' '. */
  lemma NumbersTextShape(xs: seq<nat>, seps: set<char>)
    requires xs != [] && ' ' !in seps && NoDigit(seps)
    ensures Tidy(NumbersText(xs)) && Free(NumbersText(xs), seps)
  {
    forall k | 0 <= k < |xs| ensures Tidy(Shows(xs)[k]) && Free(Shows(xs)[k], seps) {
      DigitsOnly(ShowNat(xs[k]), seps);
    }
    JoinFree(Shows(xs), ' ', seps);
    JoinEnds(Shows(xs), ' ');
  }

  /** Input text made of two parts joined by a newline has the lines of the first
      part followed by the lines of the second: blank lines vanish and no line is
      merged with another. */
  lemma IntoLinesConcat(a: string, b: string)
    ensures IntoLines(a + "\n" + b) == IntoLines(a) + IntoLines(b)
  {
    SplitConcat(a, '\n', b, {'\n'});
    NonBlankAppend(SplitOn(a, {'\n'}), SplitOn(b, {'\n'}));
  }

  /** Lines that are already tidy come back unchanged after being joined with '\n'. */
  lemma IntoLinesOfJoin(lines: seq<string>)
    requires forall k :: 0 <= k < |lines| ==> Tidy(lines[k]) && Free(lines[k], {'\n'})
    ensures IntoLines(Join(lines, '\n')) == lines
  {
    if lines != [] {
      SplitJoin(lines, {'\n'}, '\n');
      NonBlankOfTidy(lines);
    }
  }

  /** The arithmetic total, summed from the left. */
  function Total(items: seq<nat>): nat {
    if items == [] then 0 else Total(items[..|items| - 1]) + items[|items| - 1]
  }

  lemma {:induction false} TotalAppend(a: seq<nat>, b: seq<nat>)
    ensures Total(a + b) == Total(a) + Total(b)
    decreases |b|
  {
    if b == [] {
      assert a + b == a;
    } else {
      var ab := a + b;
      assert ab[..|ab| - 1] == a + b[..|b| - 1];
      assert ab[|ab| - 1] == b[|b| - 1];
      TotalAppend(a, b[..|b| - 1]);
    }
  }

  lemma {:induction false} TotalPrefix(items: seq<nat>, n: nat)
    requires n <= |items|
    ensures Total(items[..n]) <= Total(items)
  {
    assert items == items[..n] + items[n..];
    TotalAppend(items[..n], items[n..]);
  }

  /** `sum` over `u32`: the running total `acc += item` panics (None) as soon as it
      exceeds `u32::MAX`, which happens exactly when the full total does. */
  method Sum(items: seq<nat>) returns (r: Option<nat>)
    requires forall k :: 0 <= k < |items| ==> items[k] <= U32_MAX
    ensures r == if Total(items) <= U32_MAX then Some(Total(items)) else None
  {
    var acc := 0;
    var i := 0;
    while i < |items|
      invariant 0 <= i <= |items|
      invariant acc == Total(items[..i]) && acc <= U32_MAX
    {
      assert items[..i + 1][..i] == items[..i];
      if acc + items[i] > U32_MAX {
        TotalPrefix(items, i + 1);
        return None;
      }
      acc := acc + items[i];
      i := i + 1;
    }
    assert items[..i] == items;
    r := Some(acc);
  }

  // ------------------------------------------------------------------
  // The helpers below are imported by the puzzle files but are not part of
  // this model; each body is the contract this model assumes for it.

  /** ASSUMED `split(text, seps)`: cut at every character of `seps`, trim each
      piece and drop the empty ones (as `into_lines` does with '\n'). */
  function Split(text: string, seps: set<char>): (r: seq<string>)
    requires seps != {}
    ensures forall k :: 0 <= k < |r| ==> Tidy(r[k]) && Free(r[k], seps)
  {
    SplitOnFree(text, seps);
    NonBlankFree(SplitOn(text, seps), seps);
    NonBlank(SplitOn(text, seps))
  }

  /** The parsed values when every result is `Ok`; otherwise the first error. */
  function AllOk<T>(rs: seq<Result<T>>): (r: Result<seq<T>>)
    ensures r.Ok? <==> forall k :: 0 <= k < |rs| ==> rs[k].Ok?
    ensures r.Ok? ==> |r.value| == |rs| && forall k :: 0 <= k < |rs| ==> rs[k] == Ok(r.value[k])
  {
    if rs == [] then Ok([])
    else match rs[0]
      case Err(e) => Err(e)
      case Ok(v) =>
        assert forall k :: 1 <= k < |rs| ==> rs[k] == rs[1..][k - 1];
        match AllOk(rs[1..])
        case Err(e) => Err(e)
        case Ok(vs) => Ok([v] + vs)
  }

  lemma {:induction false} AllOkOf<T>(rs: seq<Result<T>>, vs: seq<T>)
    requires |rs| == |vs| && forall k :: 0 <= k < |rs| ==> rs[k] == Ok(vs[k])
    ensures AllOk(rs) == Ok(vs)
  {
    if rs != [] {
      assert forall k :: 1 <= k < |rs| ==> rs[1..][k - 1] == rs[k] && vs[1..][k - 1] == vs[k];
      AllOkOf(rs[1..], vs[1..]);
      assert [vs[0]] + vs[1..] == vs;
    }
  }

  /** ASSUMED `collect_numbers`: parse every item as a `u64`; panic on the first
      item that does not parse. */
  function CollectNumbers(items: seq<string>): (r: Result<seq<nat>>)
    ensures r.Ok? <==> forall k :: 0 <= k < |items| ==> ParseU64(items[k]).Some?
    ensures r.Ok? ==> |r.value| == |items|
                      && forall k :: 0 <= k < |items| ==> ParseU64(items[k]) == Some(r.value[k])
  {
    var rs := seq(|items|, k requires 0 <= k < |items| => NumberOf(items[k]));
    assert forall k :: 0 <= k < |items| ==> rs[k] == NumberOf(items[k]);
    AllOk(rs)
  }

  function NumberOf(item: string): (r: Result<nat>)
    ensures r.Ok? <==> ParseU64(item).Some?
    ensures r.Ok? ==> ParseU64(item) == Some(r.value)
  {
    match ParseU64(item)
    case None => Err("collect_numbers: not a number")
    case Some(n) => Ok(n)
  }

  function Flatten<T>(chunks: seq<seq<T>>): seq<T> {
    if chunks == [] then [] else chunks[0] + Flatten(chunks[1..])
  }

  /** ASSUMED `nest_vector(v, n)`: consecutive chunks of `n` elements, the last one
      shorter when `n` does not divide the length. */
  function NestVector<T>(v: seq<T>, n: nat): (r: seq<seq<T>>)
    requires n >= 1
    ensures forall k :: 0 <= k < |r| ==> 1 <= |r[k]| <= n
    ensures forall k :: 0 <= k < |r| - 1 ==> |r[k]| == n
    decreases |v|
  {
    if v == [] then []
    else if |v| <= n then [v]
    else
      var rest := NestVector(v[n..], n);
      assert forall k :: 1 <= k < |rest| + 1 ==> ([v[..n]] + rest)[k] == rest[k - 1];
      [v[..n]] + rest
  }

  /** The chunks, put back together, are the vector. */
  lemma {:induction false} NestVectorFlatten<T>(v: seq<T>, n: nat)
    requires n >= 1
    ensures Flatten(NestVector(v, n)) == v
    decreases |v|
  {
    if |v| > n {
      NestVectorFlatten(v[n..], n);
      FlattenCons(v[..n], NestVector(v[n..], n));
      assert v[..n] + v[n..] == v;
    } else if v != [] {
      FlattenCons(v, []);
      assert v + [] == v;
    }
  }

  lemma FlattenCons<T>(x: seq<T>, rest: seq<seq<T>>)
    ensures Flatten([x] + rest) == x + Flatten(rest)
  {
    assert ([x] + rest)[1..] == rest;
  }

  /** ASSUMED `min` over `u64`: the least item, `u64::MAX` for an empty list. */
  function Min(xs: seq<nat>): (r: nat)
    ensures forall k :: 0 <= k < |xs| ==> r <= xs[k]
    ensures xs != [] ==> r in xs
    ensures xs == [] ==> r == U64_MAX
  {
    if xs == [] then U64_MAX
    else if |xs| == 1 then xs[0]
    else var m := Min(xs[1..]); if xs[0] <= m then xs[0] else m
  }

  /** ASSUMED `max`: the greatest item, 0 for an empty list. */
  function Max(xs: seq<nat>): (r: nat)
    ensures forall k :: 0 <= k < |xs| ==> xs[k] <= r
    ensures xs != [] ==> r in xs
    ensures xs == [] ==> r == 0
  {
    if xs == [] then 0
    else var m := Max(xs[1..]); if xs[0] >= m then xs[0] else m
  }

  /** ASSUMED `mul`: the product of the items, 1 for an empty list. */
  function Mul(xs: seq<nat>): nat {
    if xs == [] then 1 else xs[0] * Mul(xs[1..])
  }

  /** ASSUMED `safe_sub(a, b)`: `a - b`, floored at 0 instead of underflowing. */
  function SafeSub(a: nat, b: nat): nat {
    if a >= b then a - b else 0
  }
}
