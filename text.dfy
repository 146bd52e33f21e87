/** The pieces of Rust's `str` API that the puzzle solvers use, on `seq<char>`:
    `split(char)`, `trim`, `replace`, `ends_with` and `parse::<u32>` / `parse::<u64>`.
    Only ASCII is modelled: whitespace is the six ASCII white-space characters and
    digits are '0'..'9'. */
module Text {
  import opened Wrappers

  const U32_MAX: nat := 0xFFFF_FFFF
  const U64_MAX: nat := 0xFFFF_FFFF_FFFF_FFFF

  predicate IsWhitespace(c: char) {
    c == ' ' || c == '\t' || c == '\n' || c == '\r' || c == '\U{0B}' || c == '\U{0C}'
  }

  predicate IsDigit(c: char) {
    '0' <= c <= '9'
  }

  function DigitValue(c: char): (d: nat)
    requires IsDigit(c)
    ensures d < 10
  {
    (c as int - '0' as int) as nat
  }

  function DigitChar(d: nat): (c: char)
    requires d < 10
    ensures IsDigit(c) && DigitValue(c) == d
  {
    ('0' as int + d) as char
  }

  predicate AllDigits(s: string) {
    forall i :: 0 <= i < |s| ==> IsDigit(s[i])
  }

  predicate AllWhitespace(s: string) {
    forall i :: 0 <= i < |s| ==> IsWhitespace(s[i])
  }

  // ---------------------------------------------------------------- trim

  /** `trim_start`: drop the leading whitespace. */
  function TrimStart(s: string): (r: string)
    ensures |r| <= |s|
    ensures r != [] ==> !IsWhitespace(r[0])
  {
    if s != [] && IsWhitespace(s[0]) then TrimStart(s[1..]) else s
  }

  /** What `trim_start` keeps is a suffix, and what it drops is whitespace. */
  lemma {:induction false} TrimStartShape(s: string)
    ensures TrimStart(s) == s[|s| - |TrimStart(s)|..]
    ensures AllWhitespace(s[..|s| - |TrimStart(s)|])
  {
    if s != [] && IsWhitespace(s[0]) {
      var t := s[1..];
      TrimStartShape(t);
      var n := |t| - |TrimStart(t)|;
      assert t[n..] == s[n + 1..];
      forall i | 0 <= i < n + 1 ensures IsWhitespace(s[i]) {
        if i > 0 { assert s[i] == t[..n][i - 1]; }
      }
    }
  }

  /** `trim_end`: drop the trailing whitespace. */
  function TrimEnd(s: string): (r: string)
    ensures |r| <= |s|
    ensures r != [] ==> !IsWhitespace(r[|r| - 1]) && r[0] == s[0]
  {
    if s != [] && IsWhitespace(s[|s| - 1]) then TrimEnd(s[..|s| - 1]) else s
  }

  /** What `trim_end` keeps is a prefix, and what it drops is whitespace. */
  lemma {:induction false} TrimEndShape(s: string)
    ensures TrimEnd(s) == s[..|TrimEnd(s)|]
    ensures AllWhitespace(s[|TrimEnd(s)|..])
  {
    if s != [] && IsWhitespace(s[|s| - 1]) {
      var t := s[..|s| - 1];
      TrimEndShape(t);
      var n := |TrimEnd(t)|;
      assert t[..n] == s[..n];
      forall i | n <= i < |s| ensures IsWhitespace(s[i]) {
        if i < |s| - 1 { assert s[i] == t[n..][i - n]; }
      }
    }
  }

  /** `trim`: `s` without the whitespace at either end. */
  function Trim(s: string): (r: string)
    ensures |r| <= |s|
    ensures r != [] ==> !IsWhitespace(r[0]) && !IsWhitespace(r[|r| - 1])
  {
    TrimEnd(TrimStart(s))
  }

  /** `Trim` removes only whitespace, and only at the two ends. */
  lemma TrimInfix(s: string) returns (i: nat)
    ensures i + |Trim(s)| <= |s| && Trim(s) == s[i..i + |Trim(s)|]
    ensures AllWhitespace(s[..i]) && AllWhitespace(s[i + |Trim(s)|..])
  {
    var a := TrimStart(s);
    var r := TrimEnd(a);
    TrimStartShape(s);
    TrimEndShape(a);
    i := |s| - |a|;
    assert r == s[i..i + |r|];
    assert s[i + |r|..] == a[|r|..];
  }

  /** Trimming a string that already has no whitespace at its ends changes nothing. */
  lemma {:induction false} TrimOfTrimmed(s: string)
    requires s != [] ==> !IsWhitespace(s[0]) && !IsWhitespace(s[|s| - 1])
    ensures Trim(s) == s
  {
  }

  // ---------------------------------------------------------------- split / join

  /** `str::split`: the pieces between the occurrences of any character of `seps`,
      in order. There is always one piece more than there are separators.
      Rust's `s.split(c)` is `SplitOn(s, {c})`. */
  function SplitOn(s: string, seps: set<char>): (r: seq<string>)
    requires seps != {}
    ensures |r| >= 1
  {
    if s == [] then [[]]
    else if s[0] in seps then [[]] + SplitOn(s[1..], seps)
    else
      var rest := SplitOn(s[1..], seps);
      [[s[0]] + rest[0]] + rest[1..]
  }

  /** No character of `s` is in `seps`. */
  predicate Free(s: string, seps: set<char>) {
    forall i :: 0 <= i < |s| ==> s[i] !in seps
  }

  /** The pieces with `c` between consecutive ones. */
  function Join(ps: seq<string>, c: char): (s: string)
  {
    if |ps| == 0 then []
    else if |ps| == 1 then ps[0]
    else ps[0] + [c] + Join(ps[1..], c)
  }

  /** Joining the pieces again with any one separator gives a string that splits the same way. */
  lemma {:induction false} SplitJoinSplit(s: string, seps: set<char>, c: char)
    requires c in seps
    ensures SplitOn(Join(SplitOn(s, seps), c), seps) == SplitOn(s, seps)
  {
    SplitOnFree(s, seps);
    SplitJoin(SplitOn(s, seps), seps, c);
  }

  /** No piece of a split holds a separator. */
  lemma {:induction false} SplitOnFree(s: string, seps: set<char>)
    requires seps != {}
    ensures forall k :: 0 <= k < |SplitOn(s, seps)| ==> Free(SplitOn(s, seps)[k], seps)
  {
    if s != [] {
      SplitOnFree(s[1..], seps);
      SplitCons(s[0], s[1..], seps);
      assert s == [s[0]] + s[1..];
    }
  }

  function CountIn(s: string, seps: set<char>): (n: nat)
    ensures n <= |s|
  {
    if s == [] then 0 else (if s[0] in seps then 1 else 0) + CountIn(s[1..], seps)
  }

  /** `SplitOn` yields exactly one piece per separator, plus one. */
  lemma {:induction false} SplitOnCount(s: string, seps: set<char>)
    requires seps != {}
    ensures |SplitOn(s, seps)| == CountIn(s, seps) + 1
  {
    if s != [] {
      SplitOnCount(s[1..], seps);
    }
  }

  /** Splitting a joined list gives the list back, as long as no piece holds a separator. */
  lemma {:induction false} SplitJoin(ps: seq<string>, seps: set<char>, c: char)
    requires |ps| >= 1 && c in seps
    requires forall k :: 0 <= k < |ps| ==> Free(ps[k], seps)
    ensures SplitOn(Join(ps, c), seps) == ps
  {
    if |ps| == 1 {
      SplitWithout(ps[0], seps);
    } else {
      SplitJoin(ps[1..], seps, c);
      SplitWithout(ps[0], seps);
      SplitConcat(ps[0], c, Join(ps[1..], c), seps);
    }
  }

  lemma {:induction false} SplitWithout(s: string, seps: set<char>)
    requires seps != {} && Free(s, seps)
    ensures SplitOn(s, seps) == [s]
  {
    if s != [] {
      assert Free(s[1..], seps);
      SplitWithout(s[1..], seps);
      assert [s[0]] + s[1..] == s;
    }
  }

  /** Splitting at a separator in the middle: the pieces of the two sides, one after
      the other. */
  lemma {:induction false} SplitConcat(a: string, c: char, b: string, seps: set<char>)
    requires c in seps
    ensures SplitOn(a + [c] + b, seps) == SplitOn(a, seps) + SplitOn(b, seps)
  {
    if a == [] {
      assert a + [c] + b == [c] + b;
      SplitCons(c, b, seps);
    } else {
      var t := a[1..] + [c] + b;
      assert a == [a[0]] + a[1..];
      assert a + [c] + b == [a[0]] + t;
      SplitConcat(a[1..], c, b, seps);
      SplitConsAppend(a[0], a[1..], t, seps, SplitOn(b, seps));
    }
  }

  /** One more leading character before two strings whose splits differ by a
      common tail of pieces. */
  lemma SplitConsAppend(h: char, a: string, t: string, seps: set<char>, y: seq<string>)
    requires seps != {} && SplitOn(t, seps) == SplitOn(a, seps) + y
    ensures SplitOn([h] + t, seps) == SplitOn([h] + a, seps) + y
  {
    SplitConsHead(h, t, seps);
    SplitConsHead(h, a, seps);
    HeadAppend(h, h in seps, SplitOn(a, seps), y);
  }

  /** The pieces of a split after one more character `h` in front: a new empty
      piece when `h` separates, `h` stuck to the first piece otherwise. */
  function WithHead(h: char, separates: bool, x: seq<string>): seq<string>
    requires |x| >= 1
  {
    if separates then [[]] + x else [[h] + x[0]] + x[1..]
  }

  lemma SplitConsHead(h: char, t: string, seps: set<char>)
    requires seps != {}
    ensures SplitOn([h] + t, seps) == WithHead(h, h in seps, SplitOn(t, seps))
  {
    SplitCons(h, t, seps);
  }

  lemma HeadAppend(h: char, separates: bool, x: seq<string>, y: seq<string>)
    requires |x| >= 1
    ensures WithHead(h, separates, x + y) == WithHead(h, separates, x) + y
  {
    if !separates {
      assert (x + y)[0] == x[0] && (x + y)[1..] == x[1..] + y;
    }
  }

  /** The text after the last character of `seps` in `s`, all of `s` when it holds
      none: the last piece of the split, as Rust's `split(c).last()` gives it. */
  function AfterLast(s: string, seps: set<char>): (r: string)
    ensures Free(r, seps)
  {
    if Free(s, seps) then s else AfterLast(s[1..], seps)
  }

  lemma FreeConcat(a: string, b: string, seps: set<char>)
    requires Free(a, seps) && Free(b, seps)
    ensures Free(a + b, seps)
  {
    forall i | 0 <= i < |a + b| ensures (a + b)[i] !in seps {
      if i < |a| { assert (a + b)[i] == a[i]; } else { assert (a + b)[i] == b[i - |a|]; }
    }
  }

  /** What follows the last separator is the tail after any separator that is
      followed by no other. */
  lemma {:induction false} AfterLastTail(a: string, c: char, b: string, seps: set<char>)
    requires c in seps && Free(b, seps)
    ensures AfterLast(a + [c] + b, seps) == b
  {
    var s := a + [c] + b;
    assert s[|a|] == c;
    if a == [] {
      assert s[1..] == b;
    } else {
      assert s[1..] == a[1..] + [c] + b;
      AfterLastTail(a[1..], c, b, seps);
    }
  }

  lemma {:induction false} SplitOnLast(s: string, seps: set<char>)
    requires seps != {}
    ensures SplitOn(s, seps)[|SplitOn(s, seps)| - 1] == AfterLast(s, seps)
  {
    if Free(s, seps) {
      SplitWithout(s, seps);
    } else {
      SplitOnLast(s[1..], seps);
      SplitCons(s[0], s[1..], seps);
      assert s == [s[0]] + s[1..];
      if s[0] !in seps {
        var i :| 0 <= i < |s| && s[i] in seps;
        assert s[1..][i - 1] == s[i];
        NotFreeCount(s[1..], seps);
        SplitOnCount(s[1..], seps);
      }
    }
  }

  lemma {:induction false} NotFreeCount(s: string, seps: set<char>)
    requires !Free(s, seps)
    ensures CountIn(s, seps) > 0
  {
    if s[0] !in seps {
      var i :| 0 <= i < |s| && s[i] in seps;
      assert s[1..][i - 1] == s[i];
      NotFreeCount(s[1..], seps);
    }
  }

  lemma SplitCons(h: char, t: string, seps: set<char>)
    requires seps != {}
    ensures SplitOn([h] + t, seps)
            == if h in seps then [[]] + SplitOn(t, seps)
               else [[h] + SplitOn(t, seps)[0]] + SplitOn(t, seps)[1..]
  {
    assert ([h] + t)[1..] == t;
  }

  // ---------------------------------------------------------------- replace

  predicate StartsWith(s: string, p: string) {
    |p| <= |s| && s[..|p|] == p
  }

  predicate OccursAt(s: string, p: string, i: nat)
    requires i + |p| <= |s|
  {
    s[i..i + |p|] == p
  }

  predicate Contains(s: string, p: string) {
    exists i: nat :: i + |p| <= |s| && OccursAt(s, p, i)
  }

  /** `str::replace(p, w)`: every non-overlapping occurrence of `p`, found left to
      right, replaced by `w`. */
  function ReplaceAll(s: string, p: string, w: string): string
    requires p != []
    decreases |s|
  {
    if s == [] then []
    else if StartsWith(s, p) then w + ReplaceAll(s[|p|..], p, w)
    else [s[0]] + ReplaceAll(s[1..], p, w)
  }

  /** Replacing a pattern that does not occur leaves the string as it is. */
  lemma {:induction false} ReplaceAbsent(s: string, p: string, w: string)
    requires p != [] && !Contains(s, p)
    ensures ReplaceAll(s, p, w) == s
    decreases |s|
  {
    if s != [] {
      if StartsWith(s, p) {
        assert OccursAt(s, p, 0);
      }
      if Contains(s[1..], p) {
        var i: nat :| i + |p| <= |s[1..]| && OccursAt(s[1..], p, i);
        assert s[1..][i..i + |p|] == s[i + 1..i + 1 + |p|];
        assert OccursAt(s, p, i + 1);
      }
      ReplaceAbsent(s[1..], p, w);
    }
  }

  predicate EndsWith(s: string, c: char) {
    |s| > 0 && s[|s| - 1] == c
  }

  // ---------------------------------------------------------------- numbers

  /** The value of a string of decimal digits, most significant first. */
  function DecimalValue(s: string): (v: nat)
    requires AllDigits(s)
  {
    if s == [] then 0 else 10 * DecimalValue(s[..|s| - 1]) + DigitValue(s[|s| - 1])
  }

  /** The unsigned decimal text of `n`, as Rust's `Display` writes it. */
  function ShowNat(n: nat): (s: string)
    ensures s != [] && AllDigits(s)
  {
    if n < 10 then [DigitChar(n)] else ShowNat(n / 10) + [DigitChar(n % 10)]
  }

  /** The digits that `parse` reads: an optional leading '+' is dropped. */
  function UnsignedBody(s: string): string {
    if |s| > 0 && s[0] == '+' then s[1..] else s
  }

  /** `s.parse::<uN>()` where `bound` is the type's largest value: at least one
      decimal digit after an optional '+', nothing else, and no overflow. */
  function ParseUnsigned(s: string, bound: nat): (r: Option<nat>)
    ensures r.Some? ==> r.value <= bound
  {
    var d := UnsignedBody(s);
    if d != [] && AllDigits(d) && DecimalValue(d) <= bound then Some(DecimalValue(d)) else None
  }

  function ParseU32(s: string): Option<nat> { ParseUnsigned(s, U32_MAX) }

  function ParseU64(s: string): Option<nat> { ParseUnsigned(s, U64_MAX) }

  /** Parsing a decimal rendering gives the number back. */
  lemma {:induction false} ParseShow(n: nat, bound: nat)
    requires n <= bound
    ensures ParseUnsigned(ShowNat(n), bound) == Some(n)
  {
    ShowValue(n);
  }

  lemma {:induction false} ShowValue(n: nat)
    ensures DecimalValue(ShowNat(n)) == n
  {
    if n >= 10 {
      ShowValue(n / 10);
      var s := ShowNat(n);
      assert s[..|s| - 1] == ShowNat(n / 10);
    }
  }
}
