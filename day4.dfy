/** day_4.rs: scratchcards. A line `Card 1: 41 48 83 | 83 86 6 31` is one card with
    its winning numbers before the '|' and the numbers it holds after it. Every match
    wins copies of the cards that follow, and the copies win copies in turn. */
module Scratchcards {
  import opened Wrappers
  import opened Text
  import opened Utils

  datatype Scratchcard = Scratchcard(cardNumber: nat, winningNumbers: seq<nat>, realNumbers: seq<nat>)

  /** One value of the pad's table: the card and how many of it there are. */
  datatype Entry = Entry(card: Scratchcard, count: nat)

  // ---------------------------------------------------------------- matches and score

  /** How many of `held` (repeats counted each time) occur in `winning`. */
  function MatchCount(held: seq<nat>, winning: seq<nat>): (n: nat)
    ensures n <= |held|
  {
    if held == [] then 0
    else MatchCount(held[..|held| - 1], winning) + (if held[|held| - 1] in winning then 1 else 0)
  }

  function Matches(card: Scratchcard): nat {
    MatchCount(card.realNumbers, card.winningNumbers)
  }

  function Pow2(n: nat): (p: nat)
    ensures p >= 1
  {
    if n == 0 then 1 else 2 * Pow2(n - 1)
  }

  /** The points of a card with `m` matches: none without a match, then one point
      doubled for every further match. */
  function Score(m: nat): nat {
    if m == 0 then 0 else Pow2(m - 1)
  }

  /** `Scratchcard::get_matches`. */
  method GetMatches(card: Scratchcard) returns (winningCount: nat)
    ensures winningCount == Matches(card)
  {
    var held := card.realNumbers;
    winningCount := 0;
    var i := 0;
    while i < |held|
      invariant 0 <= i <= |held|
      invariant winningCount == MatchCount(held[..i], card.winningNumbers)
    {
      assert held[..i + 1][..i] == held[..i];
      if held[i] in card.winningNumbers {
        winningCount := winningCount + 1;
      }
      i := i + 1;
    }
    assert held[..i] == held;
  }

  /** `Scratchcard::get_score`: the first match sets the count to 1, every later one
      doubles it. */
  method GetScore(card: Scratchcard) returns (winningCount: nat)
    ensures winningCount == Score(Matches(card))
  {
    var held := card.realNumbers;
    winningCount := 0;
    var i := 0;
    while i < |held|
      invariant 0 <= i <= |held|
      invariant winningCount == Score(MatchCount(held[..i], card.winningNumbers))
    {
      assert held[..i + 1][..i] == held[..i];
      if held[i] in card.winningNumbers {
        if winningCount == 0 {
          winningCount := 1;
        } else {
          winningCount := winningCount * 2;
        }
      }
      i := i + 1;
    }
    assert held[..i] == held;
  }

  /** Matches add up over the parts of the held numbers, one for every repeat. */
  lemma {:induction false} MatchCountAppend(a: seq<nat>, b: seq<nat>, winning: seq<nat>)
    ensures MatchCount(a + b, winning) == MatchCount(a, winning) + MatchCount(b, winning)
    decreases |b|
  {
    if b == [] {
      assert a + b == a;
    } else {
      var init := b[..|b| - 1];
      assert (a + b)[..|a + b| - 1] == a + init;
      MatchCountAppend(a, init, winning);
    }
  }

  /** No match exactly when no held number is a winning number. */
  lemma {:induction false} MatchCountNone(held: seq<nat>, winning: seq<nat>)
    ensures MatchCount(held, winning) == 0 <==> forall i :: 0 <= i < |held| ==> held[i] !in winning
  {
    if held != [] {
      var init := held[..|held| - 1];
      MatchCountNone(init, winning);
      assert forall i :: 0 <= i < |init| ==> init[i] == held[i];
    }
  }

  /** Every held number matches exactly when all of them are winning numbers. */
  lemma {:induction false} MatchCountAll(held: seq<nat>, winning: seq<nat>)
    ensures MatchCount(held, winning) == |held| <==> forall i :: 0 <= i < |held| ==> held[i] in winning
  {
    if held != [] {
      var init := held[..|held| - 1];
      MatchCountAll(init, winning);
      assert forall i :: 0 <= i < |init| ==> init[i] == held[i];
    }
  }

  /** The score is 0 exactly without a match, and each extra match doubles it. */
  lemma ScoreDoubles(m: nat)
    ensures Score(m) == 0 <==> m == 0
    ensures Score(m + 1) == if m == 0 then 1 else 2 * Score(m)
  {
  }

  // ---------------------------------------------------------------- Scratchcard::parse

  /** `split(" ")`, the empty pieces dropped and the rest trimmed: the filter looks at
      the piece before trimming it. */
  function Words(pieces: seq<string>): (r: seq<string>)
    ensures |r| <= |pieces|
  {
    if pieces == [] then []
    else (if pieces[0] != [] then [Trim(pieces[0])] else []) + Words(pieces[1..])
  }

  /** One section's numbers, each parsed as a `u64`; a word that does not parse panics. */
  function ReadNumbers(section: string): (r: Result<seq<nat>>)
    ensures r.Ok? ==> forall k :: 0 <= k < |r.value| ==> r.value[k] <= U64_MAX
  {
    var words := Words(SplitOn(section, {' '}));
    AllOk(seq(|words|, k requires 0 <= k < |words| => NumberOf(words[k])))
  }

  /** `Scratchcard::parse`: the card number is the last ' '-separated word of the text
      before the first ':'; the text after the last ':' is trimmed and cut at '|', the
      winning numbers read from its first piece and the held numbers from its last. */
  function ParseCard(input: string): (r: Result<Scratchcard>)
    ensures r.Ok? ==> ParseU64(AfterLast(SplitOn(input, {':'})[0], {' '})) == Some(r.value.cardNumber)
    ensures r.Ok? ==> r.value.cardNumber <= U64_MAX
  {
    var head := SplitOn(input, {':'})[0];
    match ParseU64(AfterLast(head, {' '}))
    case None => Err("invalid card number")
    case Some(n) =>
      var contents := Trim(AfterLast(input, {':'}));
      match ReadNumbers(SplitOn(contents, {'|'})[0])
      case Err(e) => Err(e)
      case Ok(winning) =>
        match ReadNumbers(AfterLast(contents, {'|'}))
        case Err(e) => Err(e)
        case Ok(held) => Ok(Scratchcard(n, winning, held))
  }

  // ---------------------------------------------------------------- printing a card

  /** The two number lists of a card with ` | ` between them. */
  function Pair(w: string, r: string): string {
    (w + " ") + ['|'] + (" " + r)
  }

  /** A card written as in the puzzle input, e.g. `Card 1: 41 48 | 83 86 6`. */
  function CardText(c: Scratchcard): string {
    ("Card " + ShowNat(c.cardNumber)) + [':']
    + (" " + Pair(NumbersText(c.winningNumbers), NumbersText(c.realNumbers)))
  }

  /** A card that can be written and read back: both lists non-empty and every
      number a `u64`. */
  predicate Printable(c: Scratchcard) {
    c.cardNumber <= U64_MAX
    && c.winningNumbers != [] && c.realNumbers != []
    && (forall k :: 0 <= k < |c.winningNumbers| ==> c.winningNumbers[k] <= U64_MAX)
    && (forall k :: 0 <= k < |c.realNumbers| ==> c.realNumbers[k] <= U64_MAX)
  }

  lemma {:induction false} WordsOfShows(xs: seq<nat>)
    ensures Words(Shows(xs)) == Shows(xs)
  {
    if xs != [] {
      var s := ShowNat(xs[0]);
      DigitsOnly(s, {' ', '|', ':'});
      TrimOfTrimmed(s);
      WordsOfShows(xs[1..]);
      assert Shows(xs) == [s] + Shows(xs[1..]);
      assert Shows(xs)[1..] == Shows(xs[1..]);
    }
  }

  lemma {:induction false} WordsAppend(a: seq<string>, b: seq<string>)
    ensures Words(a + b) == Words(a) + Words(b)
  {
    if a != [] {
      WordsAppend(a[1..], b);
      assert (a + b)[1..] == a[1..] + b;
      AppendAssoc(if a[0] != [] then [Trim(a[0])] else [], Words(a[1..]), Words(b));
    } else {
      assert a + b == b;
    }
  }

  /** The pieces of a numbers text cut at ' ' are the numbers' decimal texts. */
  lemma NumbersPieces(xs: seq<nat>)
    ensures Words(SplitOn(NumbersText(xs), {' '})) == Shows(xs)
  {
    if xs == [] {
      assert SplitOn(NumbersText(xs), {' '}) == [[]];
    } else {
      forall k | 0 <= k < |xs| ensures Free(Shows(xs)[k], {' '}) {
        DigitsOnly(ShowNat(xs[k]), {' ', '|', ':'});
      }
      SplitJoin(Shows(xs), {' '}, ' ');
    }
    WordsOfShows(xs);
  }

  /** The decimal texts of `u64` numbers read back as those numbers. */
  lemma ReadShows(xs: seq<nat>)
    requires forall k :: 0 <= k < |xs| ==> xs[k] <= U64_MAX
    ensures AllOk(seq(|xs|, k requires 0 <= k < |xs| => NumberOf(Shows(xs)[k]))) == Ok(xs)
  {
    var rs := seq(|xs|, k requires 0 <= k < |xs| => NumberOf(Shows(xs)[k]));
    forall k | 0 <= k < |xs| ensures rs[k] == Ok(xs[k]) {
      ParseShow(xs[k], U64_MAX);
    }
    AllOkOf(rs, xs);
  }

  /** A numbers text reads back as its numbers, and so it does with a space after it
      or before it. */
  lemma NumbersRoundTrip(xs: seq<nat>)
    requires forall k :: 0 <= k < |xs| ==> xs[k] <= U64_MAX
    ensures ReadNumbers(NumbersText(xs)) == Ok(xs)
  {
    NumbersPieces(xs);
    ReadShows(xs);
  }

  lemma NumbersThenSpace(xs: seq<nat>)
    requires forall k :: 0 <= k < |xs| ==> xs[k] <= U64_MAX
    ensures ReadNumbers(NumbersText(xs) + " ") == Ok(xs)
  {
    var t := NumbersText(xs);
    assert t + " " == t + [' '] + [];
    SplitConcat(t, ' ', [], {' '});
    var p := SplitOn(t, {' '});
    assert SplitOn([], {' '}) == [[]];
    WordsAppend(p, [[]]);
    assert Words([[]]) == [];
    assert Words(p + [[]]) == Words(p);
    SameWords(t + " ", t);
    NumbersRoundTrip(xs);
  }

  lemma SpaceThenNumbers(xs: seq<nat>)
    requires forall k :: 0 <= k < |xs| ==> xs[k] <= U64_MAX
    ensures ReadNumbers(" " + NumbersText(xs)) == Ok(xs)
  {
    var t := NumbersText(xs);
    assert " " + t == [] + [' '] + t;
    SplitConcat([], ' ', t, {' '});
    var p := SplitOn(t, {' '});
    assert SplitOn([], {' '}) == [[]];
    WordsAppend([[]], p);
    assert Words([[]]) == [];
    assert Words([[]] + p) == Words(p);
    SameWords(" " + t, t);
    NumbersRoundTrip(xs);
  }

  lemma SameWords(a: string, b: string)
    requires Words(SplitOn(a, {' '})) == Words(SplitOn(b, {' '}))
    ensures ReadNumbers(a) == ReadNumbers(b)
  {
  }

  /** Splitting at the only separator `c`: the first piece is what comes before it,
      the last piece what comes after it. */
  lemma CutAt(a: string, c: char, b: string)
    requires Free(a, {c}) && Free(b, {c})
    ensures SplitOn(a + [c] + b, {c})[0] == a
    ensures AfterLast(a + [c] + b, {c}) == b
  {
    SplitConcat(a, c, b, {c});
    SplitWithout(a, {c});
    AfterLastTail(a, c, b, {c});
  }

  lemma PairShape(w: string, r: string)
    requires Tidy(w) && Tidy(r) && Free(w, {'|', ':'}) && Free(r, {'|', ':'})
    ensures Tidy(Pair(w, r)) && Free(" " + Pair(w, r), {':'})
    ensures Free(w + " ", {'|'}) && Free(" " + r, {'|'})
  {
    var p := Pair(w, r);
    assert p[0] == w[0] && p[|p| - 1] == r[|r| - 1];
    FreeConcat(w, " ", {'|'});
    FreeConcat(" ", r, {'|'});
    FreeConcat(w, " ", {':'});
    FreeConcat(" ", r, {':'});
    FreeConcat(w + " ", ['|'], {':'});
    FreeConcat(w + " " + ['|'], " " + r, {':'});
    FreeConcat(" ", p, {':'});
  }

  /** The card number is the word after the space of the heading. */
  lemma HeadWord(s: string)
    requires s != [] && AllDigits(s)
    ensures Free("Card " + s, {':'}) && AfterLast("Card " + s, {' '}) == s
  {
    DigitsOnly(s, {' ', '|', ':'});
    FreeConcat("Card ", s, {':'});
    assert "Card " + s == "Card" + [' '] + s;
    AfterLastTail("Card", ' ', s, {' '});
  }

  lemma TrimPair(w: string, r: string)
    requires Tidy(Pair(w, r))
    ensures Trim(" " + Pair(w, r)) == Pair(w, r)
  {
    TrimSpaced(Pair(w, r));
  }

  /** A printable card written out reads back as the same card. */
  lemma CardRoundTrip(c: Scratchcard)
    requires Printable(c)
    ensures ParseCard(CardText(c)) == Ok(c)
  {
    var s := ShowNat(c.cardNumber);
    var w, r := NumbersText(c.winningNumbers), NumbersText(c.realNumbers);
    NumbersTextShape(c.winningNumbers, {'|', ':'});
    NumbersTextShape(c.realNumbers, {'|', ':'});
    PairShape(w, r);
    HeadWord(s);
    CutAt("Card " + s, ':', " " + Pair(w, r));
    TrimPair(w, r);
    CutAt(w + " ", '|', " " + r);
    ParseShow(c.cardNumber, U64_MAX);
    NumbersThenSpace(c.winningNumbers);
    SpaceThenNumbers(c.realNumbers);
  }

  // ---------------------------------------------------------------- the pad's table

  function CardNumbers(cards: seq<Scratchcard>): (r: seq<nat>)
    ensures |r| == |cards| && forall k :: 0 <= k < |cards| ==> r[k] == cards[k].cardNumber
  {
    seq(|cards|, k requires 0 <= k < |cards| => cards[k].cardNumber)
  }

  /** The table `Scratchpad::new` builds: every card under its number with a count
      of 1, a later card with the same number replacing an earlier one. */
  function Entries(cards: seq<Scratchcard>): map<nat, Entry> {
    if cards == [] then map[]
    else
      var last := cards[|cards| - 1];
      Entries(cards[..|cards| - 1])[last.cardNumber := Entry(last, 1)]
  }

  /** The table holds exactly the given card numbers, each once with a count of 1
      and the last card given under that number. */
  lemma {:induction false} EntriesFresh(cards: seq<Scratchcard>)
    ensures forall n :: n in Entries(cards) <==> n in CardNumbers(cards)
    ensures forall n :: n in Entries(cards) ==> Entries(cards)[n].count == 1
    ensures forall i :: 0 <= i < |cards| && (forall j :: i < j < |cards| ==> cards[j].cardNumber != cards[i].cardNumber)
              ==> Entries(cards)[cards[i].cardNumber].card == cards[i]
  {
    if cards != [] {
      var init := cards[..|cards| - 1];
      EntriesFresh(init);
      assert CardNumbers(cards) == CardNumbers(init) + [cards[|cards| - 1].cardNumber];
      assert forall i :: 0 <= i < |init| ==> init[i] == cards[i];
    }
  }

  /** The table after `amount` more copies of card `n`. */
  function Bump(m: map<nat, Entry>, n: nat, amount: nat): map<nat, Entry>
    requires n in m
  {
    m[n := Entry(m[n].card, m[n].count + amount)]
  }

  /** `register_points` on the table: `multiplier` more copies of each of the cards
      `lo .. hi - 1`, in that order; `None` for the panic on the first absent card. */
  function Register(m: map<nat, Entry>, lo: nat, hi: nat, multiplier: nat): Option<map<nat, Entry>>
    decreases hi - lo
  {
    if lo >= hi then Some(m)
    else if lo !in m then None
    else Register(Bump(m, lo, multiplier), lo + 1, hi, multiplier)
  }

  /** Registering fails exactly when one of the cards to copy is absent. */
  lemma {:induction false} RegisterDefined(m: map<nat, Entry>, lo: nat, hi: nat, multiplier: nat)
    ensures Register(m, lo, hi, multiplier).Some? <==> forall c :: lo <= c < hi ==> c in m
    decreases hi - lo
  {
    if lo < hi && lo in m {
      assert forall c :: c in Bump(m, lo, multiplier) <==> c in m;
      RegisterDefined(Bump(m, lo, multiplier), lo + 1, hi, multiplier);
    }
  }

  /** Registering adds `multiplier` to the count of each card in `lo .. hi - 1` and
      changes nothing else. */
  lemma {:induction false} RegisterAdds(m: map<nat, Entry>, lo: nat, hi: nat, multiplier: nat, m': map<nat, Entry>)
    requires Register(m, lo, hi, multiplier) == Some(m')
    ensures m'.Keys == m.Keys
    ensures forall c :: c in m ==> (m'[c].card == m[c].card
              && m'[c].count == m[c].count + (if lo <= c < hi then multiplier else 0))
    decreases hi - lo
  {
    if lo < hi {
      RegisterAdds(Bump(m, lo, multiplier), lo + 1, hi, multiplier, m');
    }
  }

  /** `copy_scratchcards` on the table: cards `lo .. hi - 1` in ascending order, each
      one registering its matches with its count at the moment it is visited;
      `None` for a panic on an absent card. */
  function Copy(m: map<nat, Entry>, lo: nat, hi: nat): Option<map<nat, Entry>>
    decreases hi - lo
  {
    if lo >= hi then Some(m)
    else if lo !in m then None
    else match Register(m, lo + 1, lo + Matches(m[lo].card) + 1, m[lo].count)
      case None => None
      case Some(m') => Copy(m', lo + 1, hi)
  }

  /** Copying keeps the cards and never lowers a count. */
  lemma {:induction false} CopyMonotone(m: map<nat, Entry>, lo: nat, hi: nat, m': map<nat, Entry>)
    requires Copy(m, lo, hi) == Some(m')
    ensures m'.Keys == m.Keys
    ensures forall c :: c in m ==> m'[c].card == m[c].card && m'[c].count >= m[c].count
    decreases hi - lo
  {
    if lo < hi {
      var mid := Register(m, lo + 1, lo + Matches(m[lo].card) + 1, m[lo].count).value;
      RegisterAdds(m, lo + 1, lo + Matches(m[lo].card) + 1, m[lo].count, mid);
      CopyMonotone(mid, lo + 1, hi, m');
    }
  }

  /** Copies only ever go to later cards: no card numbered `lo` or below changes. */
  lemma {:induction false} CopySettled(m: map<nat, Entry>, lo: nat, hi: nat, m': map<nat, Entry>)
    requires Copy(m, lo, hi) == Some(m')
    ensures forall c :: c in m && c <= lo ==> c in m' && m'[c] == m[c]
    decreases hi - lo
  {
    if lo < hi {
      var mid := Register(m, lo + 1, lo + Matches(m[lo].card) + 1, m[lo].count).value;
      RegisterAdds(m, lo + 1, lo + Matches(m[lo].card) + 1, m[lo].count, mid);
      CopySettled(mid, lo + 1, hi, m');
    }
  }

  /** The copies card `c` receives from the cards `lo .. hi - 1` of the final table:
      each card `j` whose matches reach `c` gives its final count. */
  function Copies(m: map<nat, Entry>, lo: nat, hi: nat, c: nat): nat
    requires forall j :: lo <= j < hi ==> j in m
    decreases hi - lo
  {
    if lo >= hi then 0
    else (if lo < c <= lo + Matches(m[lo].card) then m[lo].count else 0) + Copies(m, lo + 1, hi, c)
  }

  /** What copying computes: every card ends with its starting count plus the final
      count of every visited card whose matches reach it. A card's count is final
      when it is visited, since only later cards are raised after that. */
  lemma {:induction false} CopyCounts(m: map<nat, Entry>, lo: nat, hi: nat, m': map<nat, Entry>)
    requires Copy(m, lo, hi) == Some(m')
    ensures forall j :: lo <= j < hi ==> j in m'
    ensures forall c :: c in m ==> c in m' && m'[c].count == m[c].count + Copies(m', lo, hi, c)
    decreases hi - lo
  {
    if lo < hi {
      var card := m[lo].card;
      var mid := Register(m, lo + 1, lo + Matches(card) + 1, m[lo].count).value;
      RegisterAdds(m, lo + 1, lo + Matches(card) + 1, m[lo].count, mid);
      CopyCounts(mid, lo + 1, hi, m');
      CopyMonotone(mid, lo + 1, hi, m');
      CopySettled(mid, lo + 1, hi, m');
      assert m'[lo] == m[lo];
    }
  }

  // ---------------------------------------------------------------- totals

  ghost function Pick(ks: set<nat>): nat
    requires ks != {}
  {
    var k :| k in ks; k
  }

  /** The sum of the counts of the cards `ks`. */
  ghost function CountSum(m: map<nat, Entry>, ks: set<nat>): nat
    requires ks <= m.Keys
    decreases ks
  {
    if ks == {} then 0 else var k := Pick(ks); m[k].count + CountSum(m, ks - {k})
  }

  /** The total number of cards in the table. */
  ghost function TotalCards(m: map<nat, Entry>): nat {
    CountSum(m, m.Keys)
  }

  /** The sum does not depend on which card is taken out first. */
  lemma {:induction false} CountSumRemove(m: map<nat, Entry>, ks: set<nat>, y: nat)
    requires ks <= m.Keys && y in ks
    ensures CountSum(m, ks) == m[y].count + CountSum(m, ks - {y})
    decreases ks
  {
    var x := Pick(ks);
    if y != x {
      CountSumRemove(m, ks - {x}, y);
      CountSumRemove(m, ks - {y}, x);
      assert ks - {x} - {y} == ks - {y} - {x};
    }
  }

  /** Cards with a count of 1 each add up to their number. */
  lemma {:induction false} CountSumOnes(m: map<nat, Entry>, ks: set<nat>)
    requires ks <= m.Keys && forall k :: k in ks ==> m[k].count == 1
    ensures CountSum(m, ks) == |ks|
    decreases ks
  {
    if ks != {} {
      CountSumOnes(m, ks - {Pick(ks)});
    }
  }

  /** Raising counts raises the sum. */
  lemma {:induction false} CountSumLe(m: map<nat, Entry>, m': map<nat, Entry>, ks: set<nat>)
    requires ks <= m.Keys && ks <= m'.Keys
    requires forall k :: k in ks ==> m[k].count <= m'[k].count
    ensures CountSum(m, ks) <= CountSum(m', ks)
    decreases ks
  {
    if ks != {} {
      var k := Pick(ks);
      CountSumLe(m, m', ks - {k});
      CountSumRemove(m', ks, k);
    }
  }

  /** A fresh pad holds one of each card number. */
  lemma FreshTotal(cards: seq<Scratchcard>)
    ensures TotalCards(Entries(cards)) == |Entries(cards).Keys|
  {
    EntriesFresh(cards);
    CountSumOnes(Entries(cards), Entries(cards).Keys);
  }

  /** Copying never lowers the total. */
  lemma CopyTotal(m: map<nat, Entry>, lo: nat, hi: nat, m': map<nat, Entry>)
    requires Copy(m, lo, hi) == Some(m')
    ensures TotalCards(m') >= TotalCards(m)
  {
    CopyMonotone(m, lo, hi, m');
    CountSumLe(m, m', m.Keys);
  }

  // ---------------------------------------------------------------- Scratchpad

  class Scratchpad {
    var firstCard: nat
    var lastCard: nat
    var scratchcards: map<nat, Entry>

    /** `Scratchpad::new`: every card under its number with a count of 1; the first
        and last card numbers are the least and the greatest of the numbers. */
    constructor (cards: seq<Scratchcard>)
      ensures scratchcards == Entries(cards)
      ensures firstCard == Min(CardNumbers(cards)) && lastCard == Max(CardNumbers(cards))
    {
      var table: map<nat, Entry> := map[];
      var numbers: seq<nat> := [];
      var i := 0;
      while i < |cards|
        invariant 0 <= i <= |cards|
        invariant |numbers| == i && forall k :: 0 <= k < i ==> numbers[k] == cards[k].cardNumber
        invariant table == Entries(cards[..i])
      {
        assert cards[..i + 1][..i] == cards[..i];
        numbers := numbers + [cards[i].cardNumber];
        table := table[cards[i].cardNumber := Entry(cards[i], 1)];
        i := i + 1;
      }
      assert cards[..i] == cards;
      assert numbers == CardNumbers(cards);
      firstCard := Min(numbers);
      lastCard := Max(numbers);
      scratchcards := table;
    }

    /** `increment_by`: `amount` more copies of card `cardNumber`; `ok` is false
        (the panic) when the card is absent, and then nothing changes. */
    method IncrementBy(cardNumber: nat, amount: nat) returns (ok: bool)
      modifies this
      ensures ok == (cardNumber in old(scratchcards))
      ensures scratchcards == if ok then Bump(old(scratchcards), cardNumber, amount) else old(scratchcards)
      ensures firstCard == old(firstCard) && lastCard == old(lastCard)
    {
      if cardNumber !in scratchcards {
        return false;
      }
      var entry := scratchcards[cardNumber];
      scratchcards := scratchcards[cardNumber := Entry(entry.card, entry.count + amount)];
      return true;
    }

    /** `register_points`: `multiplier` more copies of each of the `points` cards after
        `cardNumber`. */
    method RegisterPoints(cardNumber: nat, points: nat, multiplier: nat) returns (ok: bool)
      modifies this
      ensures ok == Register(old(scratchcards), cardNumber + 1, cardNumber + points + 1, multiplier).Some?
      ensures ok ==> scratchcards == Register(old(scratchcards), cardNumber + 1, cardNumber + points + 1, multiplier).value
      ensures firstCard == old(firstCard) && lastCard == old(lastCard)
    {
      var startCopy := cardNumber + 1;
      var endCopy := cardNumber + points + 1;
      var copyCardNum := startCopy;
      while copyCardNum < endCopy
        invariant startCopy <= copyCardNum <= endCopy
        invariant Register(old(scratchcards), startCopy, endCopy, multiplier)
                  == Register(scratchcards, copyCardNum, endCopy, multiplier)
        invariant firstCard == old(firstCard) && lastCard == old(lastCard)
      {
        var fine := IncrementBy(copyCardNum, multiplier);
        if !fine {
          return false;
        }
        copyCardNum := copyCardNum + 1;
      }
      return true;
    }

    /** `copy_scratchcards`: the cards `firstCard ..= lastCard` in ascending order, each
        one registering its matches with its current count. */
    method CopyScratchcards() returns (ok: bool)
      modifies this
      ensures ok == Copy(old(scratchcards), old(firstCard), old(lastCard) + 1).Some?
      ensures ok ==> scratchcards == Copy(old(scratchcards), old(firstCard), old(lastCard) + 1).value
      ensures firstCard == old(firstCard) && lastCard == old(lastCard)
    {
      var cardNumber := firstCard;
      while cardNumber < lastCard + 1
        invariant firstCard == old(firstCard) && lastCard == old(lastCard)
        invariant Copy(old(scratchcards), firstCard, lastCard + 1) == Copy(scratchcards, cardNumber, lastCard + 1)
        decreases lastCard + 1 - cardNumber
      {
        if cardNumber !in scratchcards {
          return false;
        }
        var entry := scratchcards[cardNumber];
        var matches := GetMatches(entry.card);
        var fine := RegisterPoints(cardNumber, matches, entry.count);
        if !fine {
          return false;
        }
        cardNumber := cardNumber + 1;
      }
      return true;
    }

    /** `get_total_cards`: the sum of all counts, in whatever order the table yields
        them. */
    method GetTotalCards() returns (amount: nat)
      ensures amount == TotalCards(scratchcards)
    {
      amount := 0;
      var left := scratchcards.Keys;
      while left != {}
        invariant left <= scratchcards.Keys
        invariant amount + CountSum(scratchcards, left) == TotalCards(scratchcards)
        decreases left
      {
        var k :| k in left;
        CountSumRemove(scratchcards, left, k);
        amount := amount + scratchcards[k].count;
        left := left - {k};
      }
    }
  }
}
