/** day_3.rs: Gear Ratios. A character scan of the engine schematic records every
    number (its value, line and column span) and every symbol; part numbers are the
    numbers next to a symbol, gears the '*' symbols next to two numbers. */
module GearRatios {
  import opened Wrappers
  import opened Text

  datatype PartNumber = PartNumber(line: nat, startCol: nat, endCol: nat, number: nat)

  datatype Symbol = Symbol(line: nat, col: nat, couldBeGear: bool)

  datatype Schematic = Schematic(partNumbers: seq<PartNumber>, symbols: seq<Symbol>)

  // ================================================================ Schematic::parse

  /** The scanner's variables after some prefix of the input. */
  datatype Scan = Scan(line: nat, col: nat, buffer: string, parts: seq<PartNumber>, symbols: seq<Symbol>)

  /** The buffer holds only digits, each of which moved the column on by one. */
  predicate ScanValid(st: Scan) {
    AllDigits(st.buffer) && |st.buffer| <= st.col
  }

  const Overflow := "part number does not fit in u32"

  /** The scanner's reaction to one character. A pending number that does not fit a
      `u32` makes `parse::<u32>().unwrap()` panic. */
  function Step(st: Scan, c: char): (r: Result<Scan>)
    requires ScanValid(st)
    ensures r.Ok? ==> ScanValid(r.value)
  {
    if c == ' ' || c == '\t' then Ok(st)
    else if IsDigit(c) then Ok(st.(buffer := st.buffer + [c], col := st.col + 1))
    else match Flush(st)
      case Err(e) => Err(e)
      case Ok(s) => Ok(Place(s, c))
  }

  /** A character that is neither blank nor a digit first ends the pending number,
      recording it as a part number that spans the columns its digits took. */
  function Flush(st: Scan): (r: Result<Scan>)
    requires ScanValid(st)
    ensures r.Ok? ==> r.value.buffer == [] && r.value.col == st.col
  {
    if st.buffer == [] then Ok(st)
    else if DecimalValue(st.buffer) > U32_MAX then Err(Overflow)
    else Ok(st.(parts := st.parts + [PartNumber(st.line, st.col - |st.buffer|, st.col, DecimalValue(st.buffer))],
                buffer := []))
  }

  /** Then a newline starts the next line, and any other character takes one column,
      recorded as a symbol unless it is '.'. */
  function Place(st: Scan, c: char): (r: Scan)
    requires st.buffer == []
    ensures ScanValid(r) && r.parts == st.parts
  {
    if c == '\n' then st.(col := 0, line := st.line + 1)
    else if c != '.' then st.(symbols := st.symbols + [Symbol(st.line, st.col, c == '*')], col := st.col + 1)
    else st.(col := st.col + 1)
  }

  /** The scanner's variables after reading all of `s`, left to right. */
  function Run(s: string): (r: Result<Scan>)
    ensures r.Ok? ==> ScanValid(r.value)
  {
    if s == [] then Ok(Scan(0, 0, [], [], []))
    else match Run(s[..|s| - 1])
      case Err(e) => Err(e)
      case Ok(st) => Step(st, s[|s| - 1])
  }

  /** `Schematic::parse`: the numbers and symbols the scan records. A number still
      pending when the input ends is dropped. */
  method Parse(input: string) returns (r: Result<Schematic>)
    ensures r.Err? <==> Run(input).Err?
    ensures r.Ok? ==> r.value == Schematic(Run(input).value.parts, Run(input).value.symbols)
  {
    var currentNumberChars: string := [];
    var partNumbers: seq<PartNumber> := [];
    var symbols: seq<Symbol> := [];
    var lineNumber: nat := 0;
    var colNumber: nat := 0;
    var i := 0;
    while i < |input|
      invariant 0 <= i <= |input|
      invariant Run(input[..i]) == Ok(Scan(lineNumber, colNumber, currentNumberChars, partNumbers, symbols))
    {
      ghost var st := Scan(lineNumber, colNumber, currentNumberChars, partNumbers, symbols);
      RunStep(input, i, st);
      var ok;
      ok, lineNumber, colNumber, currentNumberChars, partNumbers, symbols :=
        ReadCharacter(lineNumber, colNumber, currentNumberChars, partNumbers, symbols, input[i]);
      if !ok {
        RunErrPrefix(input, i + 1);
        return Err(Overflow);
      }
      i := i + 1;
    }
    assert input[..i] == input;
    return Ok(Schematic(partNumbers, symbols));
  }

  /** The body of the scanning loop: what one character does to the scanner's
      variables; `ok` is false where the pending number overflows. */
  method ReadCharacter(lineNumber: nat, colNumber: nat, currentNumberChars: string, partNumbers: seq<PartNumber>,
                       symbols: seq<Symbol>, character: char)
    returns (ok: bool, lineNumber': nat, colNumber': nat, currentNumberChars': string, partNumbers': seq<PartNumber>,
             symbols': seq<Symbol>)
    requires ScanValid(Scan(lineNumber, colNumber, currentNumberChars, partNumbers, symbols))
    ensures Step(Scan(lineNumber, colNumber, currentNumberChars, partNumbers, symbols), character)
            == if ok then Ok(Scan(lineNumber', colNumber', currentNumberChars', partNumbers', symbols')) else Err(Overflow)
  {
    ghost var st := Scan(lineNumber, colNumber, currentNumberChars, partNumbers, symbols);
    ok, lineNumber', colNumber', currentNumberChars', partNumbers', symbols' :=
      true, lineNumber, colNumber, currentNumberChars, partNumbers, symbols;
    if character == ' ' || character == '\t' {
      return;
    }
    if IsDigit(character) {
      currentNumberChars' := currentNumberChars + [character];
      colNumber' := colNumber + 1;
      return;
    }
    if currentNumberChars != [] {
      var number := DecimalValue(currentNumberChars);
      if number > U32_MAX {
        ok := false;
        return;
      }
      var startCol := colNumber - |currentNumberChars|;
      partNumbers' := partNumbers + [PartNumber(lineNumber, startCol, colNumber, number)];
      currentNumberChars' := [];
    }
    ghost var flushed := Scan(lineNumber', colNumber', currentNumberChars', partNumbers', symbols');
    FlushResult(st, flushed);
    if character == '\n' {
      colNumber' := 0;
      lineNumber' := lineNumber + 1;
    } else {
      if character != '.' {
        symbols' := symbols + [Symbol(lineNumber, colNumber, character == '*')];
      }
      colNumber' := colNumber + 1;
    }
    PlaceResult(flushed, character, Scan(lineNumber', colNumber', currentNumberChars', partNumbers', symbols'));
  }

  lemma {:induction false} RunErrSticky(s: string, t: string)
    requires Run(s).Err?
    ensures Run(s + t).Err?
    decreases |t|
  {
    if t == [] {
      assert s + t == s;
    } else {
      var u := s + t[..|t| - 1];
      RunErrSticky(s, t[..|t| - 1]);
      assert s + t == u + [t[|t| - 1]];
      RunSnoc(u, t[|t| - 1]);
    }
  }

  lemma RunStep(s: string, i: nat, st: Scan)
    requires i < |s| && Run(s[..i]) == Ok(st)
    ensures Run(s[..i + 1]) == Step(st, s[i])
  {
    assert s[..i + 1][..i] == s[..i];
  }

  /** An overflow ends the scan: the whole input fails once a prefix of it does. */
  lemma RunErrPrefix(s: string, n: nat)
    requires n <= |s| && Run(s[..n]).Err?
    ensures Run(s).Err?
  {
    RunErrSticky(s[..n], s[n..]);
    assert s[..n] + s[n..] == s;
  }

  lemma FlushResult(st: Scan, flushed: Scan)
    requires ScanValid(st) && (st.buffer != [] ==> DecimalValue(st.buffer) <= U32_MAX)
    requires flushed.line == st.line && flushed.col == st.col && flushed.buffer == [] && flushed.symbols == st.symbols
    requires flushed.parts == st.parts + (if st.buffer == [] then []
                                        else [PartNumber(st.line, st.col - |st.buffer|, st.col, DecimalValue(st.buffer))])
    ensures Flush(st) == Ok(flushed)
  {
    if st.buffer == [] {
      assert st.parts + [] == st.parts;
    }
  }

  lemma PlaceResult(st: Scan, c: char, placed: Scan)
    requires st.buffer == [] && placed.buffer == [] && placed.parts == st.parts
    requires c == '\n' ==> placed.line == st.line + 1 && placed.col == 0 && placed.symbols == st.symbols
    requires c != '\n' ==> placed.line == st.line && placed.col == st.col + 1
    requires c != '\n' ==> placed.symbols == st.symbols + (if c != '.' then [Symbol(st.line, st.col, c == '*')] else [])
    ensures Place(st, c) == placed
  {
    if c != '\n' && c == '.' {
      assert st.symbols + [] == st.symbols;
    }
  }


  lemma RunSnoc(s: string, c: char)
    ensures Run(s + [c]) == match Run(s) case Err(e) => Err(e) case Ok(st) => Step(st, c)
  {
    assert (s + [c])[..|s|] == s;
  }

  /** A space or a tab changes nothing: not even the column moves. */
  lemma SkipBlank(s: string, c: char)
    requires c == ' ' || c == '\t'
    ensures Run(s + [c]) == Run(s)
  {
    RunSnoc(s, c);
  }

  /** A newline ends the line: the column goes back to 0 and the line number up by 1. */
  lemma NewlineResets(s: string)
    requires Run(s).Ok? && Run(s + "\n").Ok?
    ensures Run(s + "\n").value.col == 0
    ensures Run(s + "\n").value.line == Run(s).value.line + 1
    ensures Run(s + "\n").value.buffer == []
  {
    RunSnoc(s, '\n');
  }

  /** With no number pending, a symbol character is recorded at the current column,
      as a possible gear exactly when it is '*', and moves the column on by one. */
  lemma SymbolRecorded(s: string, c: char)
    requires c != ' ' && c != '\t' && c != '\n' && c != '.' && !IsDigit(c)
    requires Run(s).Ok? && Run(s).value.buffer == []
    ensures Run(s + [c]).Ok?
    ensures var st := Run(s).value;
            Run(s + [c]).value == st.(symbols := st.symbols + [Symbol(st.line, st.col, c == '*')], col := st.col + 1)
  {
    RunSnoc(s, c);
  }

  /** Digits accumulate: they extend the buffer and the column and emit nothing, and
      blanks between them are ignored. */
  lemma {:induction false} DigitsAccumulate(s: string, st: Scan, digits: string)
    requires Run(s) == Ok(st) && AllDigits(digits)
    ensures Run(s + digits) == Ok(Scan(st.line, st.col + |digits|, st.buffer + digits, st.parts, st.symbols))
    decreases |digits|
  {
    if digits == [] {
      assert s + digits == s;
      assert st.buffer + digits == st.buffer;
    } else {
      var init, last := digits[..|digits| - 1], digits[|digits| - 1];
      assert AllDigits(init);
      var mid := Scan(st.line, st.col + |init|, st.buffer + init, st.parts, st.symbols);
      DigitsAccumulate(s, st, init);
      ConcatSnoc(s, digits);
      RunThen(s + init, last, mid);
      StepDigit(mid, last);
      ConcatSnoc(st.buffer, digits);
      assert mid.col + 1 == st.col + |digits|;
      assert mid.line == st.line && mid.parts == st.parts && mid.symbols == st.symbols;
    }
  }

  lemma ConcatSnoc(a: string, d: string)
    requires d != []
    ensures a + d == (a + d[..|d| - 1]) + [d[|d| - 1]]
  {
  }

  lemma RunThen(s: string, c: char, st: Scan)
    requires Run(s) == Ok(st)
    ensures Run(s + [c]) == Step(st, c)
  {
    assert (s + [c])[..|s|] == s;
  }


  lemma StepDigit(st: Scan, c: char)
    requires ScanValid(st) && IsDigit(c)
    ensures Step(st, c) == Ok(Scan(st.line, st.col + 1, st.buffer + [c], st.parts, st.symbols))
  {
  }

  /** A digit run at the very end of the input is never emitted. */
  lemma TrailingRunDropped(s: string, digits: string)
    requires Run(s).Ok? && AllDigits(digits)
    ensures Run(s + digits).Ok? && Run(s + digits).value.parts == Run(s).value.parts
  {
    DigitsAccumulate(s, Run(s).value, digits);
  }

  /** A digit run closed by a character that is neither a digit nor blank yields one
      part number: its decimal value, on the current line, spanning exactly as many
      columns as it has digits. */
  lemma NumberEmitted(s: string, st: Scan, digits: string, c: char)
    requires Run(s) == Ok(st) && st.buffer == []
    requires digits != [] && AllDigits(digits) && DecimalValue(digits) <= U32_MAX
    requires c != ' ' && c != '\t' && !IsDigit(c)
    ensures Run(s + digits + [c]).Ok?
    ensures Run(s + digits + [c]).value.parts
            == st.parts + [PartNumber(st.line, st.col, st.col + |digits|, DecimalValue(digits))]
  {
    assert st.buffer + digits == digits;
    var st' := Scan(st.line, st.col + |digits|, digits, st.parts, st.symbols);
    DigitsAccumulate(s, st, digits);
    RunThen(s + digits, c, st');
    StepFlushes(st', c);
    assert st'.parts == st.parts && st'.buffer == digits && st'.line == st.line;
    assert PartNumber(st'.line, st'.col - |st'.buffer|, st'.col, DecimalValue(st'.buffer))
           == PartNumber(st.line, st.col, st.col + |digits|, DecimalValue(digits));
  }

  lemma StepFlushes(st: Scan, c: char)
    requires ScanValid(st) && st.buffer != [] && DecimalValue(st.buffer) <= U32_MAX
    requires c != ' ' && c != '\t' && !IsDigit(c)
    ensures Step(st, c).Ok?
    ensures Step(st, c).value.parts
            == st.parts + [PartNumber(st.line, st.col - |st.buffer|, st.col, DecimalValue(st.buffer))]
  {
  }

  /** The line number counts the newlines read. */
  lemma {:induction false} LineCounts(s: string)
    requires Run(s).Ok?
    ensures Run(s).value.line == NewlinesIn(s)
  {
    if s != [] {
      var init, last := s[..|s| - 1], s[|s| - 1];
      assert s == init + [last];
      RunSnoc(init, last);
      LineCounts(init);
      NewlinesSnoc(init, last);
    }
  }

  function NewlinesIn(s: string): nat {
    if s == [] then 0 else NewlinesIn(s[..|s| - 1]) + (if s[|s| - 1] == '\n' then 1 else 0)
  }

  lemma NewlinesSnoc(s: string, c: char)
    ensures NewlinesIn(s + [c]) == NewlinesIn(s) + (if c == '\n' then 1 else 0)
  {
    assert (s + [c])[..|s|] == s;
  }

  /** Every recorded number has a well-formed span and a `u32` value. */
  predicate PartsOk(parts: seq<PartNumber>) {
    forall k :: 0 <= k < |parts| ==> parts[k].startCol < parts[k].endCol && parts[k].number <= U32_MAX
  }

  lemma {:induction false} PartsWellFormed(s: string)
    requires Run(s).Ok?
    ensures PartsOk(Run(s).value.parts)
  {
    if s != [] {
      var init := s[..|s| - 1];
      PartsWellFormed(init);
      StepKeepsParts(Run(init).value, s[|s| - 1]);
    }
  }

  lemma StepKeepsParts(st: Scan, c: char)
    requires ScanValid(st) && PartsOk(st.parts) && Step(st, c).Ok?
    ensures PartsOk(Step(st, c).value.parts)
  {
    if c != ' ' && c != '\t' && !IsDigit(c) {
      FlushKeepsParts(st);
    }
  }

  lemma FlushKeepsParts(st: Scan)
    requires ScanValid(st) && PartsOk(st.parts) && Flush(st).Ok?
    ensures PartsOk(Flush(st).value.parts)
  {
    if st.buffer != [] {
      var p := PartNumber(st.line, st.col - |st.buffer|, st.col, DecimalValue(st.buffer));
      assert Flush(st).value.parts == st.parts + [p];
    }
  }


  // ================================================================ PartNumber::is_symbol_adjacent

  /** `is_symbol_adjacent` as written, over `u32`: when the first test fails for a
      symbol on line 0, `symbol.line - 1` underflows, which panics (`None`). */
  function IsSymbolAdjacentAsWritten(p: PartNumber, s: Symbol): Option<bool> {
    if s.line + 1 < p.line then Some(false)
    else if s.line == 0 then None
    else if s.line - 1 > p.line then Some(false)
    else Some(s.col + 1 >= p.startCol && s.col <= p.endCol)
  }

  /** The adjacency rule the comment at day_3.rs:153 describes: the symbol is on the
      same line or a neighbouring one, and its column is within one of the span. */
  function IsSymbolAdjacent(p: PartNumber, s: Symbol): (r: bool)
    ensures r <==> -1 <= s.line - p.line <= 1 && p.startCol <= s.col + 1 && s.col <= p.endCol
  {
    s.line + 1 >= p.line && p.line + 1 >= s.line && s.col + 1 >= p.startCol && s.col <= p.endCol
  }

  /** Whenever the code as written gives an answer, it is the intended one; it fails
      exactly for a symbol on line 0 next to a number on line 0 or 1. */
  lemma AsWrittenAgrees(p: PartNumber, s: Symbol)
    ensures IsSymbolAdjacentAsWritten(p, s).Some? ==> IsSymbolAdjacentAsWritten(p, s).value == IsSymbolAdjacent(p, s)
    ensures IsSymbolAdjacentAsWritten(p, s).None? <==> s.line == 0 && p.line <= 1
  {
  }

  /** A '*' on the first line, right after a number on the same line: the code as
      written panics, and the intended rule calls them adjacent. */
  lemma FirstLineCounterexample()
    ensures IsSymbolAdjacentAsWritten(PartNumber(0, 0, 3, 467), Symbol(0, 3, true)).None?
    ensures IsSymbolAdjacent(PartNumber(0, 0, 3, 467), Symbol(0, 3, true))
  {
  }

  /** Adjacent means touching: the symbol's cell is one of the eight neighbours of a
      cell of the number (columns `startCol .. endCol - 1`), or in the number's row. */
  lemma AdjacentMeansTouching(p: PartNumber, s: Symbol)
    requires p.startCol < p.endCol
    ensures IsSymbolAdjacent(p, s) <==>
            exists k :: p.startCol <= k < p.endCol && Touches(p.line, k, s)
  {
    if IsSymbolAdjacent(p, s) {
      var k := if s.col < p.startCol then p.startCol else if s.col >= p.endCol then p.endCol - 1 else s.col;
      assert Touches(p.line, k, s);
    }
  }

  predicate Touches(line: nat, col: nat, s: Symbol) {
    -1 <= s.line - line <= 1 && -1 <= s.col - col <= 1
  }

  // ================================================================ Schematic::get_parts_with_symbols

  predicate HasAdjacentSymbol(p: PartNumber, symbols: seq<Symbol>) {
    exists k :: 0 <= k < |symbols| && IsSymbolAdjacent(p, symbols[k])
  }

  /** The part numbers next to some symbol, in their order. */
  function PartsWithSymbols(parts: seq<PartNumber>, symbols: seq<Symbol>): (r: seq<PartNumber>)
    ensures |r| <= |parts|
  {
    if parts == [] then []
    else
      var p := parts[|parts| - 1];
      PartsWithSymbols(parts[..|parts| - 1], symbols) + (if HasAdjacentSymbol(p, symbols) then [p] else [])
  }

  /** A number is kept exactly when it is a number of the schematic with a symbol next
      to it. */
  lemma {:induction false} PartsWithSymbolsMembers(parts: seq<PartNumber>, symbols: seq<Symbol>, p: PartNumber)
    ensures p in PartsWithSymbols(parts, symbols) <==> p in parts && HasAdjacentSymbol(p, symbols)
  {
    if parts != [] {
      var init := parts[..|parts| - 1];
      PartsWithSymbolsMembers(init, symbols, p);
      assert parts == init + [parts[|parts| - 1]];
    }
  }

  /** Kept numbers appear at most as often as in the schematic, so a number listed
      once is kept at most once. */
  lemma {:induction false} PartsWithSymbolsSubset(parts: seq<PartNumber>, symbols: seq<Symbol>)
    ensures multiset(PartsWithSymbols(parts, symbols)) <= multiset(parts)
  {
    if parts != [] {
      var init := parts[..|parts| - 1];
      PartsWithSymbolsSubset(init, symbols);
      assert parts == init + [parts[|parts| - 1]];
    }
  }

  lemma PartsWithSymbolsPrefix(parts: seq<PartNumber>, symbols: seq<Symbol>, i: nat)
    requires i < |parts|
    ensures PartsWithSymbols(parts[..i + 1], symbols)
            == PartsWithSymbols(parts[..i], symbols) + (if HasAdjacentSymbol(parts[i], symbols) then [parts[i]] else [])
  {
    assert parts[..i + 1][..i] == parts[..i];
  }

  /** `Schematic::get_parts_with_symbols`: for each number, scan the symbols and keep
      the number at the first adjacent one. */
  method GetPartsWithSymbols(schematic: Schematic) returns (r: seq<PartNumber>)
    ensures r == PartsWithSymbols(schematic.partNumbers, schematic.symbols)
  {
    var parts, symbols := schematic.partNumbers, schematic.symbols;
    r := [];
    var i := 0;
    while i < |parts|
      invariant 0 <= i <= |parts|
      invariant r == PartsWithSymbols(parts[..i], symbols)
    {
      var part := parts[i];
      var j := 0;
      var found := false;
      while j < |symbols| && !found
        invariant 0 <= j <= |symbols|
        invariant found <==> j > 0 && IsSymbolAdjacent(part, symbols[j - 1])
        invariant forall k :: 0 <= k < j - 1 ==> !IsSymbolAdjacent(part, symbols[k])
        invariant !found ==> forall k :: 0 <= k < j ==> !IsSymbolAdjacent(part, symbols[k])
      {
        if IsSymbolAdjacent(part, symbols[j]) {
          found := true;
        }
        j := j + 1;
      }
      PartsWithSymbolsPrefix(parts, symbols, i);
      if found {
        r := r + [part];
      }
      i := i + 1;
    }
    assert parts[..i] == parts;
  }

  // ================================================================ Schematic::get_gears_with_parts

  datatype Gear = Gear(symbol: Symbol, part1: PartNumber, part2: PartNumber)

  /** The numbers adjacent to `s`, in their order. */
  function AdjacentParts(parts: seq<PartNumber>, s: Symbol): (r: seq<PartNumber>)
  {
    if parts == [] then []
    else
      var p := parts[|parts| - 1];
      AdjacentParts(parts[..|parts| - 1], s) + (if IsSymbolAdjacent(p, s) then [p] else [])
  }

  /** Only numbers adjacent to the symbol are listed, and every one of them is. */
  lemma {:induction false} AdjacentPartsMembers(parts: seq<PartNumber>, s: Symbol)
    ensures forall p :: p in AdjacentParts(parts, s) <==> p in parts && IsSymbolAdjacent(p, s)
  {
    if parts != [] {
      var init := parts[..|parts| - 1];
      AdjacentPartsMembers(init, s);
      assert parts == init + [parts[|parts| - 1]];
    }
  }

  lemma AdjacentPartsPrefix(parts: seq<PartNumber>, s: Symbol, j: nat)
    requires j < |parts|
    ensures AdjacentParts(parts[..j + 1], s)
            == AdjacentParts(parts[..j], s) + (if IsSymbolAdjacent(parts[j], s) then [parts[j]] else [])
  {
    assert parts[..j + 1][..j] == parts[..j];
  }

  /** The gear of one symbol: only a '*' with at least two adjacent numbers has one,
      made of the first two of them. */
  function GearOf(parts: seq<PartNumber>, s: Symbol): seq<Gear> {
    var adjacent := AdjacentParts(parts, s);
    if s.couldBeGear && |adjacent| >= 2 then [Gear(s, adjacent[0], adjacent[1])] else []
  }

  /** The gears of the schematic, one symbol after the other. */
  function GearsOf(symbols: seq<Symbol>, parts: seq<PartNumber>): seq<Gear> {
    if symbols == [] then [] else GearsOf(symbols[..|symbols| - 1], parts) + GearOf(parts, symbols[|symbols| - 1])
  }

  /** Every gear is a '*' with two different adjacent numbers of the schematic, the
      first before the second, and there is at most one gear per symbol. */
  lemma {:induction false} GearsSound(symbols: seq<Symbol>, parts: seq<PartNumber>)
    ensures |GearsOf(symbols, parts)| <= |symbols|
    ensures forall k :: 0 <= k < |GearsOf(symbols, parts)| ==>
              var g := GearsOf(symbols, parts)[k];
              g.symbol in symbols && g.symbol.couldBeGear
              && g.part1 in parts && g.part2 in parts
              && IsSymbolAdjacent(g.part1, g.symbol) && IsSymbolAdjacent(g.part2, g.symbol)
  {
    if symbols != [] {
      var init := symbols[..|symbols| - 1];
      GearsSound(init, parts);
      assert forall x :: x in init ==> x in symbols;
      var last := symbols[|symbols| - 1];
      AdjacentPartsMembers(parts, last);
      var adjacent := AdjacentParts(parts, last);
      assert |adjacent| >= 2 ==> adjacent[0] in adjacent && adjacent[1] in adjacent;
    }
  }

  /** The inner loop for one symbol: the first adjacent number goes to `part_1`, the
      second to `part_2` together with a gear, later ones change nothing. */
  method GearForSymbol(parts: seq<PartNumber>, symbol: Symbol) returns (gears: seq<Gear>)
    requires symbol.couldBeGear
    ensures gears == GearOf(parts, symbol)
  {
    gears := [];
    var part1: Option<PartNumber> := None;
    var part2: Option<PartNumber> := None;
    var j := 0;
    while j < |parts|
      invariant 0 <= j <= |parts|
      invariant var adjacent := AdjacentParts(parts[..j], symbol);
                (part1.None? <==> |adjacent| == 0) && (part1.Some? ==> part1.value == adjacent[0])
                && (part2.None? <==> |adjacent| <= 1) && (part2.Some? ==> part2.value == adjacent[1])
                && gears == GearOf(parts[..j], symbol)
    {
      var partNumber := parts[j];
      AdjacentPartsPrefix(parts, symbol, j);
      if !IsSymbolAdjacent(partNumber, symbol) {
        j := j + 1;
        continue;
      }
      if part1.None? {
        part1 := Some(partNumber);
      } else if part2.None? {
        part2 := Some(partNumber);
        gears := gears + [Gear(symbol, part1.value, part2.value)];
      }
      j := j + 1;
    }
    assert parts[..j] == parts;
  }

  /** `Schematic::get_gears_with_parts`: every '*' symbol, in order, gives its gear. */
  method GetGearsWithParts(schematic: Schematic) returns (gears: seq<Gear>)
    ensures gears == GearsOf(schematic.symbols, schematic.partNumbers)
  {
    var parts, symbols := schematic.partNumbers, schematic.symbols;
    gears := [];
    var i := 0;
    while i < |symbols|
      invariant 0 <= i <= |symbols|
      invariant gears == GearsOf(symbols[..i], parts)
    {
      var symbol := symbols[i];
      assert symbols[..i + 1][..i] == symbols[..i];
      if !symbol.couldBeGear {
        i := i + 1;
        continue;
      }
      var found := GearForSymbol(parts, symbol);
      gears := gears + found;
      i := i + 1;
    }
    assert symbols[..i] == symbols;
  }

  /** `Gear::get_ratio`: the product of the two numbers, a `u32` multiplication that
      panics when the product does not fit. */
  function GetRatio(g: Gear): (r: Option<nat>)
    ensures r.Some? <==> g.part1.number * g.part2.number <= U32_MAX
    ensures r.Some? ==> r.value == g.part1.number * g.part2.number
  {
    var product := g.part1.number * g.part2.number;
    if product <= U32_MAX then Some(product) else None
  }
}
