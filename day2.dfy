/** day_2.rs: games in which handfuls of red, green and blue cubes are drawn from a
    bag. A line `Game 3: 8 green, 6 blue; 20 red` is one game with two drawings. */
module CubeConundrum {
  import opened Wrappers
  import opened Text
  import opened Utils

  datatype Colour = Red | Blue | Green

  /** How many cubes of each colour one drawing showed; `None` when the colour was
      not mentioned. */
  datatype Drawing = Drawing(red: Option<nat>, blue: Option<nat>, green: Option<nat>)

  datatype Game = Game(id: nat, drawings: seq<Drawing>)

  /** The bag the first question asks about: 12 red, 13 green and 14 blue cubes. */
  const Limit := Drawing(Some(12), Some(14), Some(13))

  const NoCubes := Drawing(None, None, None)

  function Count(d: Drawing, c: Colour): Option<nat> {
    match c
    case Red => d.red
    case Blue => d.blue
    case Green => d.green
  }

  function WithCount(d: Drawing, c: Colour, n: nat): (r: Drawing)
    ensures Count(r, c) == Some(n)
    ensures forall c' :: c' != c ==> Count(r, c') == Count(d, c')
  {
    match c
    case Red => d.(red := Some(n))
    case Blue => d.(blue := Some(n))
    case Green => d.(green := Some(n))
  }

  function Name(c: Colour): string {
    match c
    case Red => "red"
    case Blue => "blue"
    case Green => "green"
  }

  function ColourNamed(name: string): (r: Option<Colour>)
    ensures r.Some? ==> Name(r.value) == name
  {
    if name == "red" then Some(Red)
    else if name == "blue" then Some(Blue)
    else if name == "green" then Some(Green)
    else None
  }

  function TrimAll(ps: seq<string>): (r: seq<string>)
    ensures |r| == |ps| && forall k :: 0 <= k < |ps| ==> r[k] == Trim(ps[k])
  {
    if ps == [] then []
    else
      var rest := TrimAll(ps[1..]);
      assert forall k :: 1 <= k < |ps| ==> ps[k] == ps[1..][k - 1];
      [Trim(ps[0])] + rest
  }

  // ---------------------------------------------------------------- Drawing::parse

  /** The items of a drawing's text: its ','-separated pieces, trimmed. */
  function DrawingItems(input: string): seq<string> {
    TrimAll(SplitOn(input, {','}))
  }

  /** The words of an item: its ' '-separated pieces, trimmed. */
  function Sections(item: string): (r: seq<string>)
    ensures |r| >= 1
  {
    TrimAll(SplitOn(item, {' '}))
  }

  /** One `"N colour"` item read from its words: the count is the first word and the
      colour the last; a count that is not a `u32` or a colour other than the three
      panics, in that order. */
  function ReadSections(sections: seq<string>): Result<(Colour, nat)>
    requires |sections| >= 1
  {
    match ParseU32(sections[0])
    case None => Err("invalid count")
    case Some(n) =>
      match ColourNamed(sections[|sections| - 1])
      case None => Err("Invalid color")
      case Some(c) => Ok((c, n))
  }

  /** An item as read: its colour and count, or the panic it causes. */
  type ItemRead = Result<(Colour, nat)>

  function ReadItem(item: string): Result<(Colour, nat)> {
    ReadSections(Sections(item))
  }

  function ReadItems(items: seq<string>): (r: seq<ItemRead>)
    ensures |r| == |items|
  {
    seq(|items|, k requires 0 <= k < |items| => ReadItem(items[k]))
  }

  /** The drawing that read items build, left to right; the first bad item is the
      error. */
  function Assemble(got: seq<ItemRead>): Result<Drawing> {
    if got == [] then Ok(NoCubes)
    else match Assemble(got[..|got| - 1])
      case Err(e) => Err(e)
      case Ok(d) =>
        match got[|got| - 1]
        case Err(e) => Err(e)
        case Ok(item) => Ok(WithCount(d, item.0, item.1))
  }

  /** `Drawing::parse`'s result for the items of a drawing's text. */
  function ReadDrawing(items: seq<string>): Result<Drawing> {
    Assemble(ReadItems(items))
  }

  lemma {:induction false} AssembleErrSticky(a: seq<ItemRead>, b: seq<ItemRead>)
    requires Assemble(a).Err?
    ensures Assemble(a + b) == Assemble(a)
    decreases |b|
  {
    if b == [] {
      assert a + b == a;
    } else {
      AssembleErrSticky(a, b[..|b| - 1]);
      assert (a + b)[..|a + b| - 1] == a + b[..|b| - 1];
    }
  }

  /** `Drawing::parse`: cut the text into its items, then read them in order. */
  method ParseDrawing(input: string) returns (r: Result<Drawing>)
    ensures r == ReadDrawing(DrawingItems(input))
  {
    var items := DrawingItems(input);
    r := DrawingFromItems(items);
  }

  /** The loop of `Drawing::parse`: every item sets the count of its colour,
      overwriting an earlier one; a bad count or colour stops it with a panic. */
  method DrawingFromItems(items: seq<string>) returns (r: Result<Drawing>)
    ensures r == ReadDrawing(items)
  {
    ghost var got := ReadItems(items);
    var red: Option<nat>, blue: Option<nat>, green: Option<nat> := None, None, None;
    var i := 0;
    while i < |items|
      invariant 0 <= i <= |items|
      invariant Assemble(got[..i]) == Ok(Drawing(red, blue, green))
    {
      assert got[..i + 1][..i] == got[..i];
      var sections := TrimAll(SplitOn(items[i], {' '}));
      var item := ReadSections(sections);
      if item.Err? {
        r := Err(item.reason);
        AssembleErrSticky(got[..i + 1], got[i + 1..]);
        assert got[..i + 1] + got[i + 1..] == got;
        return;
      }
      var (colour, count) := item.value;
      match colour {
        case Red => red := Some(count);
        case Blue => blue := Some(count);
        case Green => green := Some(count);
      }
      i := i + 1;
    }
    assert got[..i] == got;
    r := Ok(Drawing(red, blue, green));
  }

  /** The count given by the last item that names `c`, if any item does. */
  function LastCount(got: seq<ItemRead>, c: Colour): Option<nat> {
    if got == [] then None
    else match got[|got| - 1]
      case Ok(item) =>
        if item.0 == c then Some(item.1) else LastCount(got[..|got| - 1], c)
      case Err(_) => LastCount(got[..|got| - 1], c)
  }

  /** A drawing builds exactly when each of its items got, and then every colour
      holds the count of its LAST item, and stays `None` when no item names it. */
  lemma {:induction false} AssembleLastWins(got: seq<ItemRead>)
    ensures Assemble(got).Ok? <==> forall k :: 0 <= k < |got| ==> got[k].Ok?
    ensures Assemble(got).Ok? ==> forall c :: Count(Assemble(got).value, c) == LastCount(got, c)
  {
    if got != [] {
      var init := got[..|got| - 1];
      AssembleLastWins(init);
      assert forall k :: 0 <= k < |init| ==> init[k] == got[k];
    }
  }

  // ---------------------------------------------------------------- playability

  /** `Drawing::is_playable_with`: every count at most the limit's, in the order
      `Option` derives, where `None` is below every `Some`. */
  predicate DrawingPlayable(d: Drawing, limit: Drawing) {
    OptionLe(d.red, limit.red) && OptionLe(d.green, limit.green) && OptionLe(d.blue, limit.blue)
  }

  /** A colour a drawing does not mention never makes it unplayable; one it does
      mention needs a limit that is present and at least as large. */
  lemma DrawingPlayableMeaning(d: Drawing, limit: Drawing)
    ensures DrawingPlayable(d, limit) <==>
              forall c :: Count(d, c).Some? ==>
                            Count(limit, c).Some? && Count(d, c).value <= Count(limit, c).value
  {
    assert Count(d, Red) == d.red && Count(d, Green) == d.green && Count(d, Blue) == d.blue;
  }

  predicate GamePlayable(g: Game, limit: Drawing) {
    forall k :: 0 <= k < |g.drawings| ==> DrawingPlayable(g.drawings[k], limit)
  }

  /** `Game::is_playable_with`: the first unplayable drawing answers false; a game
      with no drawings is playable. */
  method GameIsPlayableWith(g: Game, limit: Drawing) returns (b: bool)
    ensures b <==> forall k :: 0 <= k < |g.drawings| ==> DrawingPlayable(g.drawings[k], limit)
  {
    var i := 0;
    while i < |g.drawings|
      invariant 0 <= i <= |g.drawings|
      invariant forall k :: 0 <= k < i ==> DrawingPlayable(g.drawings[k], limit)
    {
      if !DrawingPlayable(g.drawings[i], limit) {
        return false;
      }
      i := i + 1;
    }
    return true;
  }

  // ---------------------------------------------------------------- get_lowest_counts

  /** The counts of `c` that the drawings mention, in order. */
  function Present(ds: seq<Drawing>, c: Colour): (r: seq<nat>)
    ensures forall x :: x in r <==> exists k :: 0 <= k < |ds| && Count(ds[k], c) == Some(x)
  {
    if ds == [] then []
    else
      var rest := Present(ds[1..], c);
      assert forall k :: 1 <= k < |ds| ==> ds[k] == ds[1..][k - 1];
      (if Count(ds[0], c).Some? then [Count(ds[0], c).value] else []) + rest
  }

  /** The largest count of `c` in the drawings, or 0 when none mentions `c`. */
  function Lowest(ds: seq<Drawing>, c: Colour): (m: nat)
    ensures forall k :: 0 <= k < |ds| && Count(ds[k], c).Some? ==> Count(ds[k], c).value <= m
    ensures (exists k :: 0 <= k < |ds| && Count(ds[k], c) == Some(m))
            || (m == 0 && forall k :: 0 <= k < |ds| ==> Count(ds[k], c).None?)
  {
    var xs := Present(ds, c);
    forall k | 0 <= k < |ds| && Count(ds[k], c).Some? ensures Count(ds[k], c).value in xs {
    }
    Max(xs)
  }

  /** `get_lowest_counts`: a drawing with a count for every colour. */
  function LowestCounts(g: Game): Drawing {
    Drawing(Some(Lowest(g.drawings, Red)), Some(Lowest(g.drawings, Blue)), Some(Lowest(g.drawings, Green)))
  }

  /** Every colour of the lowest counts holds the largest count any drawing shows
      for it, or 0 when no drawing mentions it. */
  lemma LowestCountsMax(g: Game, c: Colour)
    ensures Count(LowestCounts(g), c).Some?
    ensures forall k :: 0 <= k < |g.drawings| && Count(g.drawings[k], c).Some? ==>
                          Count(g.drawings[k], c).value <= Count(LowestCounts(g), c).value
    ensures (exists k :: 0 <= k < |g.drawings| && Count(g.drawings[k], c) == Count(LowestCounts(g), c))
            || (Count(LowestCounts(g), c) == Some(0)
                && forall k :: 0 <= k < |g.drawings| ==> Count(g.drawings[k], c).None?)
  {
    assert Count(LowestCounts(g), c) == Some(Lowest(g.drawings, c)) by {
      match c {
        case Red =>
        case Blue =>
        case Green =>
      }
    }
  }

  /** With a bag that holds some cubes of every colour, a game is playable exactly
      when the drawing of its lowest counts is. */
  lemma PlayableIffLowest(g: Game, limit: Drawing)
    requires forall c :: Count(limit, c).Some?
    ensures GamePlayable(g, limit) <==> DrawingPlayable(LowestCounts(g), limit)
  {
    if GamePlayable(g, limit) {
      LowestNeeded(g, limit);
    }
    if DrawingPlayable(LowestCounts(g), limit) {
      LowestEnough(g, limit);
    }
  }

  lemma LowestEnough(g: Game, limit: Drawing)
    requires DrawingPlayable(LowestCounts(g), limit)
    ensures GamePlayable(g, limit)
  {
    DrawingPlayableMeaning(LowestCounts(g), limit);
    forall c {
      LowestCountsMax(g, c);
    }
    forall k | 0 <= k < |g.drawings| ensures DrawingPlayable(g.drawings[k], limit) {
      DrawingPlayableMeaning(g.drawings[k], limit);
    }
  }

  lemma LowestNeeded(g: Game, limit: Drawing)
    requires forall c :: Count(limit, c).Some?
    requires GamePlayable(g, limit)
    ensures DrawingPlayable(LowestCounts(g), limit)
  {
    var low := LowestCounts(g);
    DrawingPlayableMeaning(low, limit);
    forall c ensures Count(low, c).Some? && Count(low, c).value <= Count(limit, c).value {
      LowestCountsMax(g, c);
      if k :| 0 <= k < |g.drawings| && Count(g.drawings[k], c) == Count(low, c) {
        DrawingPlayableMeaning(g.drawings[k], limit);
      }
    }
  }

  /** The lowest counts are the smallest bag the game can be played with: the game
      is playable with them, and every bag it is playable with has at least as many
      cubes of each colour. */
  lemma LowestCountsLeast(g: Game, limit: Drawing)
    requires forall c :: Count(limit, c).Some?
    ensures GamePlayable(g, LowestCounts(g))
    ensures GamePlayable(g, limit) ==> forall c :: OptionLe(Count(LowestCounts(g), c), Count(limit, c))
  {
    var low := LowestCounts(g);
    forall c {
      LowestCountsMax(g, c);
    }
    forall k | 0 <= k < |g.drawings| ensures DrawingPlayable(g.drawings[k], low) {
      DrawingPlayableMeaning(g.drawings[k], low);
    }
    PlayableIffLowest(g, limit);
    DrawingPlayableMeaning(low, limit);
  }

  // ---------------------------------------------------------------- power

  function Factor(count: Option<nat>): nat {
    if count.Some? then count.value else 1
  }

  /** `Drawing::power`: the product of the counts the drawing mentions (1 when it
      mentions none); a missing colour does not zero it. */
  method Power(d: Drawing) returns (p: nat)
    ensures p == Factor(d.blue) * Factor(d.green) * Factor(d.red)
  {
    var items: seq<nat> := [];
    if d.blue.Some? {
      items := items + [d.blue.value];
    }
    if d.green.Some? {
      items := items + [d.green.value];
    }
    if d.red.Some? {
      items := items + [d.red.value];
    }
    assert items == (if d.blue.Some? then [d.blue.value] else [])
                    + (if d.green.Some? then [d.green.value] else [])
                    + (if d.red.Some? then [d.red.value] else []);
    MulOfFactors(d);
    p := Mul(items);
  }

  lemma MulOfFactors(d: Drawing)
    ensures Mul((if d.blue.Some? then [d.blue.value] else [])
                + (if d.green.Some? then [d.green.value] else [])
                + (if d.red.Some? then [d.red.value] else []))
            == Factor(d.blue) * Factor(d.green) * Factor(d.red)
  {
    var b := if d.blue.Some? then [d.blue.value] else [];
    var g := if d.green.Some? then [d.green.value] else [];
    var r := if d.red.Some? then [d.red.value] else [];
    MulAppend(b, g);
    MulAppend(b + g, r);
    assert Mul(b) == Factor(d.blue) && Mul(g) == Factor(d.green) && Mul(r) == Factor(d.red);
  }

  lemma {:induction false} MulAppend(a: seq<nat>, b: seq<nat>)
    ensures Mul(a + b) == Mul(a) * Mul(b)
  {
    if a != [] {
      assert (a + b)[1..] == a[1..] + b;
      MulAppend(a[1..], b);
      calc {
        Mul(a + b);
        a[0] * Mul(a[1..] + b);
        a[0] * (Mul(a[1..]) * Mul(b));
        (a[0] * Mul(a[1..])) * Mul(b);
      }
    } else {
      assert a + b == b;
    }
  }

  // ---------------------------------------------------------------- Game::parse

  /** One ';'-separated piece of a game, trimmed and parsed as a drawing. */
  function DrawingOfPiece(piece: string): Result<Drawing> {
    ReadDrawing(DrawingItems(Trim(piece)))
  }

  /** Each piece parsed as a drawing, in order; the first bad piece is the error. */
  function ReadDrawings(pieces: seq<string>): (r: Result<seq<Drawing>>)
    ensures r.Ok? ==> |r.value| == |pieces|
  {
    AllOk(seq(|pieces|, k requires 0 <= k < |pieces| => DrawingOfPiece(pieces[k])))
  }

  /** `Game::parse`: the id is the last ' '-separated word, trimmed, of the text
      before the first ':', and the drawings are the ';'-separated pieces of the text
      after the last ':'. With no ':' both are the whole line. */
  function ReadGame(input: string): (r: Result<Game>)
    ensures r.Ok? ==> r.value.id <= U32_MAX
    ensures r.Ok? ==> |r.value.drawings| == |SplitOn(AfterLast(input, {':'}), {';'})|
  {
    var head := SplitOn(input, {':'})[0];
    match ParseU32(Trim(AfterLast(head, {' '})))
    case None => Err("invalid game id")
    case Some(id) =>
      match ReadDrawings(SplitOn(AfterLast(input, {':'}), {';'}))
      case Err(e) => Err(e)
      case Ok(ds) => Ok(Game(id, ds))
  }

  // ---------------------------------------------------------------- printing a game

  function ItemText(c: Colour, n: nat): string {
    ShowNat(n) + " " + Name(c)
  }

  function Part(c: Colour, count: Option<nat>): seq<string> {
    if count.Some? then [ItemText(c, count.value)] else []
  }

  /** The items of a drawing, red then green then blue, the missing colours left out. */
  function ItemsOf(d: Drawing): seq<string> {
    Part(Red, d.red) + Part(Green, d.green) + Part(Blue, d.blue)
  }

  /** Every piece after the first one gets a leading space. */
  function Spaced(ps: seq<string>): (r: seq<string>)
    ensures |r| == |ps| && (ps != [] ==> r[0] == ps[0])
    ensures forall k :: 1 <= k < |ps| ==> r[k] == " " + ps[k]
  {
    if ps == [] then [] else [ps[0]] + Prefixed(ps[1..])
  }

  /** Every piece gets a leading space. */
  function Prefixed(ps: seq<string>): (r: seq<string>)
    ensures |r| == |ps| && forall k :: 0 <= k < |ps| ==> r[k] == " " + ps[k]
  {
    if ps == [] then [] else [" " + ps[0]] + Prefixed(ps[1..])
  }

  function DrawingTexts(ds: seq<Drawing>): (r: seq<string>)
    ensures |r| == |ds| && forall k :: 0 <= k < |ds| ==> r[k] == DrawingText(ds[k])
  {
    if ds == [] then []
    else
      var rest := DrawingTexts(ds[1..]);
      assert forall k :: 1 <= k < |ds| ==> ds[k] == ds[1..][k - 1];
      [DrawingText(ds[0])] + rest
  }

  /** A drawing written as in the puzzle input, e.g. `3 blue, 4 red`. */
  function DrawingText(d: Drawing): string {
    Join(Spaced(ItemsOf(d)), ',')
  }

  /** A game written as in the puzzle input, e.g. `Game 1: 3 blue, 4 red; 1 red`. */
  function GameText(g: Game): string {
    "Game " + ShowNat(g.id) + ":"
    + Join(Prefixed(DrawingTexts(g.drawings)), ';')
  }

  /** A drawing that can be written and read back: it mentions some colour and
      every count fits a `u32`. */
  predicate Showable(d: Drawing) {
    (d.red.Some? || d.green.Some? || d.blue.Some?)
    && forall c :: Count(d, c).Some? ==> Count(d, c).value <= U32_MAX
  }

  lemma {:induction false} JoinLast(ps: seq<string>, c: char)
    requires |ps| >= 1 && ps[|ps| - 1] != []
    ensures Join(ps, c) != []
    ensures Join(ps, c)[|Join(ps, c)| - 1] == ps[|ps| - 1][|ps[|ps| - 1]| - 1]
  {
    if |ps| > 1 {
      JoinLast(ps[1..], c);
    }
  }

  lemma NotWhitespaceDigit(c: char)
    requires IsDigit(c)
    ensures !IsWhitespace(c)
  {
  }

  lemma ItemTidy(c: Colour, n: nat)
    ensures Tidy(ItemText(c, n))
    ensures Free(ItemText(c, n), {',', ';', ':'})
    ensures ItemText(c, n)[0] == ShowNat(n)[0]
  {
    var s := ShowNat(n);
    NotWhitespaceDigit(s[0]);
    assert forall i :: 0 <= i < |s| ==> IsDigit(s[i]);
    var t := ItemText(c, n);
    assert forall i :: 0 <= i < |t| ==> t[i] == if i < |s| then s[i] else if i == |s| then ' ' else Name(c)[i - |s| - 1];
  }

  lemma NameTidy(c: Colour)
    ensures Tidy(Name(c)) && Free(Name(c), {' ', ',', ';', ':'})
  {
    var w := Name(c);
    assert w == "red" || w == "blue" || w == "green";
    assert forall i :: 0 <= i < |w| ==> 'a' <= w[i] <= 'z';
  }

  lemma ColourNameRoundTrip(c: Colour)
    ensures ColourNamed(Name(c)) == Some(c)
  {
    match c {
      case Red =>
      case Blue =>
      case Green =>
    }
  }


  /** The words of an item's text are its count and its colour name. */
  lemma ItemWords(c: Colour, n: nat)
    ensures Sections(ItemText(c, n)) == [ShowNat(n), Name(c)]
  {
    var s := ShowNat(n);
    DigitsOnly(s, {' ', ',', ';', ':'});
    NameTidy(c);
    assert ItemText(c, n) == s + [' '] + Name(c);
    SplitConcat(s, ' ', Name(c), {' '});
    SplitWithout(s, {' '});
    SplitWithout(Name(c), {' '});
    var parts := SplitOn(ItemText(c, n), {' '});
    assert parts == [s, Name(c)];
    TrimOfTrimmed(s);
    TrimOfTrimmed(Name(c));
    var sections := TrimAll(parts);
    assert sections[0] == s && sections[1] == Name(c);
  }

  /** An item written out reads back as its colour and count. */
  lemma ItemRoundTrip(c: Colour, n: nat)
    requires n <= U32_MAX
    ensures ReadItem(ItemText(c, n)) == Ok((c, n))
  {
    ItemWords(c, n);
    ParseShow(n, U32_MAX);
    ColourNameRoundTrip(c);
  }

  function ReadPart(c: Colour, count: Option<nat>): seq<ItemRead> {
    if count.Some? then [Ok((c, count.value))] else []
  }

  lemma ReadItemsAppend(a: seq<string>, b: seq<string>)
    ensures ReadItems(a + b) == ReadItems(a) + ReadItems(b)
  {
    var x, y, z := ReadItems(a), ReadItems(b), ReadItems(a + b);
    forall k | 0 <= k < |z| ensures z[k] == (x + y)[k] {
      if k < |a| {
        assert (a + b)[k] == a[k];
      } else {
        assert (a + b)[k] == b[k - |a|];
      }
    }
  }

  lemma ReadPartOf(c: Colour, count: Option<nat>)
    requires count.Some? ==> count.value <= U32_MAX
    ensures ReadItems(Part(c, count)) == ReadPart(c, count)
  {
    if count.Some? {
      ItemRoundTrip(c, count.value);
    }
  }

  lemma AssemblePart(got: seq<ItemRead>, c: Colour, count: Option<nat>, d: Drawing)
    requires Assemble(got) == Ok(d)
    ensures Assemble(got + ReadPart(c, count)) == Ok(if count.Some? then WithCount(d, c, count.value) else d)
  {
    if count.Some? {
      var t := got + ReadPart(c, count);
      assert t[..|t| - 1] == got;
    } else {
      assert got + ReadPart(c, count) == got;
    }
  }

  /** The items of a showable drawing read back as that drawing. */
  lemma ItemsRoundTrip(d: Drawing)
    requires Showable(d)
    ensures ReadDrawing(ItemsOf(d)) == Ok(d)
  {
    assert Count(d, Red) == d.red && Count(d, Green) == d.green && Count(d, Blue) == d.blue;
    var r, g, b := Part(Red, d.red), Part(Green, d.green), Part(Blue, d.blue);
    ReadPartOf(Red, d.red);
    ReadPartOf(Green, d.green);
    ReadPartOf(Blue, d.blue);
    ReadItemsAppend(r, g);
    ReadItemsAppend(r + g, b);
    var rr, rg, rb := ReadPart(Red, d.red), ReadPart(Green, d.green), ReadPart(Blue, d.blue);
    assert ReadItems(ItemsOf(d)) == rr + rg + rb;
    assert Assemble([]) == Ok(NoCubes);
    AssemblePart([], Red, d.red, NoCubes);
    assert [] + rr == rr;
    AssemblePart(rr, Green, d.green, Drawing(d.red, None, None));
    AssemblePart(rr + rg, Blue, d.blue, Drawing(d.red, None, d.green));
  }

  lemma {:induction false} SpacedTrim(ps: seq<string>)
    requires forall k :: 0 <= k < |ps| ==> Tidy(ps[k])
    ensures TrimAll(Spaced(ps)) == ps
  {
    forall k | 0 <= k < |ps| ensures Trim(Spaced(ps)[k]) == ps[k] {
      if k == 0 {
        TrimOfTrimmed(ps[0]);
      } else {
        TrimSpaced(ps[k]);
      }
    }
  }

  lemma ItemsOfProps(d: Drawing)
    requires Showable(d)
    ensures |ItemsOf(d)| >= 1
    ensures forall k :: 0 <= k < |ItemsOf(d)| ==> Tidy(ItemsOf(d)[k]) && Free(ItemsOf(d)[k], {',', ';', ':'})
  {
    if d.red.Some? { ItemTidy(Red, d.red.value); }
    if d.green.Some? { ItemTidy(Green, d.green.value); }
    if d.blue.Some? { ItemTidy(Blue, d.blue.value); }
  }

  lemma SpaceFree(t: string, seps: set<char>)
    requires ' ' !in seps && Free(t, seps)
    ensures Free(" " + t, seps)
  {
    assert forall i :: 1 <= i < |" " + t| ==> (" " + t)[i] == t[i - 1];
  }

  lemma SpacedFree(ps: seq<string>, seps: set<char>)
    requires ' ' !in seps
    requires forall k :: 0 <= k < |ps| ==> Free(ps[k], seps)
    ensures forall k :: 0 <= k < |ps| ==> Free(Spaced(ps)[k], seps)
  {
    forall k | 1 <= k < |ps| ensures Free(" " + ps[k], seps) {
      SpaceFree(ps[k], seps);
    }
  }

  /** Pieces joined, the first one tidy at its start and the last one at its end,
      make a tidy text. */
  lemma JoinTidy(ps: seq<string>, c: char)
    requires |ps| >= 1 && Tidy(ps[0])
    requires ps[|ps| - 1] != [] && !IsWhitespace(ps[|ps| - 1][|ps[|ps| - 1]| - 1])
    ensures Tidy(Join(ps, c))
  {
    JoinLast(ps, c);
    if |ps| > 1 {
      assert Join(ps, c) == ps[0] + [c] + Join(ps[1..], c);
    }
  }

  /** The text of a showable drawing is tidy, and its items are free of ',' and
      of the game separators. */
  lemma DrawingTextTidy(d: Drawing)
    requires Showable(d)
    ensures Tidy(DrawingText(d))
  {
    var items := ItemsOf(d);
    var sp := Spaced(items);
    ItemsOfProps(d);
    var last := items[|items| - 1];
    assert sp[|sp| - 1][|sp[|sp| - 1]| - 1] == last[|last| - 1];
    JoinTidy(sp, ',');
  }

  lemma DrawingTextFree(d: Drawing)
    requires Showable(d)
    ensures Free(DrawingText(d), {';', ':'})
  {
    var items := ItemsOf(d);
    ItemsOfProps(d);
    assert forall k :: 0 <= k < |items| ==> Free(items[k], {';', ':'});
    SpacedFree(items, {';', ':'});
    JoinFree(Spaced(items), ',', {';', ':'});
  }

  lemma DrawingTextItems(d: Drawing)
    requires Showable(d)
    ensures DrawingItems(DrawingText(d)) == ItemsOf(d)
  {
    var items := ItemsOf(d);
    ItemsOfProps(d);
    assert forall k :: 0 <= k < |items| ==> Free(items[k], {','});
    SpacedFree(items, {','});
    SplitJoin(Spaced(items), {','}, ',');
    SpacedTrim(items);
  }

  /** A tidy text with a space in front, as it stands after a ';', parses as the
      text itself does. */
  lemma PieceRoundTrip(t: string, items: seq<string>, d: Drawing)
    requires Tidy(t) && DrawingItems(t) == items && ReadDrawing(items) == Ok(d)
    ensures DrawingOfPiece(" " + t) == Ok(d)
  {
    TrimSpaced(t);
  }

  lemma DrawingRoundTrip(d: Drawing)
    requires Showable(d)
    ensures DrawingOfPiece(" " + DrawingText(d)) == Ok(d)
  {
    DrawingTextTidy(d);
    DrawingTextItems(d);
    ItemsRoundTrip(d);
    PieceRoundTrip(DrawingText(d), ItemsOf(d), d);
  }

  lemma DrawingPieceFree(d: Drawing)
    requires Showable(d)
    ensures Free(" " + DrawingText(d), {';', ':'})
  {
    DrawingTextFree(d);
    SpaceFree(DrawingText(d), {';', ':'});
  }

  lemma ReadDrawingsOf(pieces: seq<string>, ds: seq<Drawing>)
    requires |pieces| == |ds|
    requires forall k :: 0 <= k < |pieces| ==> DrawingOfPiece(pieces[k]) == Ok(ds[k])
    ensures ReadDrawings(pieces) == Ok(ds)
  {
    var rs := seq(|pieces|, k requires 0 <= k < |pieces| => DrawingOfPiece(pieces[k]));
    AllOkOf(rs, ds);
  }

  /** The header "Game <id>" gives the id back, and holds no ':'. */
  lemma GameHeadId(id: nat)
    requires id <= U32_MAX
    ensures ParseU32(Trim(AfterLast("Game " + ShowNat(id), {' '}))) == Some(id)
    ensures Free("Game " + ShowNat(id), {':'})
  {
    var s := ShowNat(id);
    assert s[0] == s[0] && forall i :: 0 <= i < |s| ==> IsDigit(s[i]);
    forall i | 0 <= i < |s| ensures s[i] !in {' '} && s[i] !in {':'} {
      NotWhitespaceDigit(s[i]);
    }
    assert "Game " + s == "Game" + [' '] + s;
    AfterLastTail("Game", ' ', s, {' '});
    NotWhitespaceDigit(s[0]);
    NotWhitespaceDigit(s[|s| - 1]);
    TrimOfTrimmed(s);
    ParseShow(id, U32_MAX);
    assert Free("Game ", {':'});
    FreeConcat("Game ", s, {':'});
  }

  /** A header and a body, neither holding ':', joined by ':'. */
  lemma HeadAndBody(head: string, body: string)
    requires Free(head, {':'}) && Free(body, {':'})
    ensures SplitOn(head + [':'] + body, {':'})[0] == head
    ensures AfterLast(head + [':'] + body, {':'}) == body
  {
    SplitConcat(head, ':', body, {':'});
    SplitWithout(head, {':'});
    AfterLastTail(head, ':', body, {':'});
  }

  /** `Game::parse` put together from what its steps read. */
  lemma ReadGameParts(input: string, head: string, body: string, id: nat, ds: seq<Drawing>)
    requires SplitOn(input, {':'})[0] == head && AfterLast(input, {':'}) == body
    requires ParseU32(Trim(AfterLast(head, {' '}))) == Some(id)
    requires ReadDrawings(SplitOn(body, {';'})) == Ok(ds)
    ensures ReadGame(input) == Ok(Game(id, ds))
  {
  }

  /** A game line assembled from an id and pieces that each read as a drawing
      reads as the game. */
  lemma ReadGameOf(id: nat, pieces: seq<string>, ds: seq<Drawing>)
    requires id <= U32_MAX && |pieces| == |ds| >= 1
    requires forall k :: 0 <= k < |pieces| ==> Free(pieces[k], {';', ':'})
    requires forall k :: 0 <= k < |pieces| ==> DrawingOfPiece(pieces[k]) == Ok(ds[k])
    ensures ReadGame("Game " + ShowNat(id) + ":" + Join(pieces, ';')) == Ok(Game(id, ds))
  {
    assert forall k :: 0 <= k < |pieces| ==> Free(pieces[k], {';'}) && Free(pieces[k], {':'});
    var head := "Game " + ShowNat(id);
    var body := Join(pieces, ';');
    JoinFree(pieces, ';', {':'});
    GameHeadId(id);
    assert head + ":" + body == head + [':'] + body;
    HeadAndBody(head, body);
    SplitJoin(pieces, {';'}, ';');
    ReadDrawingsOf(pieces, ds);
    ReadGameParts(head + ":" + body, head, body, id, ds);
  }

  /** A game written out as in the puzzle input parses back to the same game, as
      long as it has a drawing, every drawing mentions a colour and every number
      fits a `u32`. */
  lemma GameRoundTrip(g: Game)
    requires g.id <= U32_MAX && |g.drawings| >= 1
    requires forall k :: 0 <= k < |g.drawings| ==> Showable(g.drawings[k])
    ensures ReadGame(GameText(g)) == Ok(g)
  {
    var pieces := Prefixed(DrawingTexts(g.drawings));
    forall k | 0 <= k < |g.drawings|
      ensures DrawingOfPiece(pieces[k]) == Ok(g.drawings[k])
      ensures Free(pieces[k], {';', ':'})
    {
      DrawingRoundTrip(g.drawings[k]);
      DrawingPieceFree(g.drawings[k]);
    }
    ReadGameOf(g.id, pieces, g.drawings);
  }
}
