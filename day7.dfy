/** day_7.rs: Camel Cards. Hands of five cards are classified (a Joker stands in
    for whatever card makes the hand strongest), ordered by type and then card by
    card, ranked weakest first, and each bid is paid times its rank. */
module CamelCards {
  import opened Wrappers
  import opened Text
  import opened Utils

  // ================================================================ cards and types

  /** The cards in declaration order; the derived `Ord` follows that order. */
  datatype Card = Ace | King | Queen | Thegn | Nine | Eight | Seven | Six | Five | Four | Three | Two | Joker

  /** The derived order as a position: `Ace` is the lowest card and `Joker` the
      highest, so `Ace.cmp(Joker)` is `Less`. */
  function CardRank(c: Card): (r: nat)
    ensures r <= 12
    ensures r == 0 <==> c == Ace
    ensures r == 12 <==> c == Joker
  {
    match c
    case Ace => 0
    case King => 1
    case Queen => 2
    case Thegn => 3
    case Nine => 4
    case Eight => 5
    case Seven => 6
    case Six => 7
    case Five => 8
    case Four => 9
    case Three => 10
    case Two => 11
    case Joker => 12
  }

  datatype HandType = FiveOfAKind | FourOfAKind | FullHouse | ThreeOfAKind | TwoPair | OnePair | HighCard

  /** The derived order on hand types: `FiveOfAKind` is the lowest and `HighCard`
      the highest, so a stronger type compares `Less`. */
  function TypeRank(t: HandType): (r: nat)
    ensures r <= 6
    ensures r == 0 <==> t == FiveOfAKind
    ensures r == 6 <==> t == HighCard
  {
    match t
    case FiveOfAKind => 0
    case FourOfAKind => 1
    case FullHouse => 2
    case ThreeOfAKind => 3
    case TwoPair => 4
    case OnePair => 5
    case HighCard => 6
  }

  function Compare(x: nat, y: nat): Ordering {
    if x < y then Less else if x == y then Equal else Greater
  }

  function CardCmp(a: Card, b: Card): Ordering {
    Compare(CardRank(a), CardRank(b))
  }

  /** The letters `Card::from_char` accepts, in `Card` order. */
  const CardLetters: string := "AKQT98765432J"

  /** The letter a card is written with. */
  function CardChar(c: Card): char {
    CardLetters[CardRank(c)]
  }

  /** `Card::from_char`: one of the thirteen letters, anything else panics. */
  function CardFromChar(ch: char): (r: Result<Card>)
    ensures r.Ok? <==> ch in CardLetters
    ensures r.Ok? ==> CardChar(r.value) == ch
  {
    match ch
    case 'A' => Ok(Ace)
    case 'K' => Ok(King)
    case 'Q' => Ok(Queen)
    case 'T' => Ok(Thegn)
    case '9' => Ok(Nine)
    case '8' => Ok(Eight)
    case '7' => Ok(Seven)
    case '6' => Ok(Six)
    case '5' => Ok(Five)
    case '4' => Ok(Four)
    case '3' => Ok(Three)
    case '2' => Ok(Two)
    case 'J' => Ok(Joker)
    case _ => Err("Invalid card character")
  }

  /** Writing a card and reading it back gives the same card. */
  lemma CardCharRoundTrip(c: Card)
    ensures CardFromChar(CardChar(c)) == Ok(c)
  {
  }

  // ================================================================ counting

  /** `[Card; 5]`. */
  type Cards = s: seq<Card> | |s| == 5 witness [Ace, Ace, Ace, Ace, Ace]

  /** `counts.get(card).unwrap_or(&0)`. */
  function CountOf(counts: map<Card, nat>, c: Card): nat {
    if c in counts then counts[c] else 0
  }

  const AllCards: seq<Card> := [Ace, King, Queen, Thegn, Nine, Eight, Seven, Six, Five, Four, Three, Two, Joker]

  /** The counts of the given cards, added up. */
  function Tally(keys: seq<Card>, counts: map<Card, nat>): nat {
    if keys == [] then 0 else CountOf(counts, keys[0]) + Tally(keys[1..], counts)
  }

  function TallyOf(keys: seq<Card>, m: multiset<Card>): nat {
    if keys == [] then 0 else m[keys[0]] + TallyOf(keys[1..], m)
  }

  predicate Distinct(keys: seq<Card>) {
    forall i, j :: 0 <= i < j < |keys| ==> keys[i] != keys[j]
  }

  lemma {:induction false} TallyAdd(keys: seq<Card>, m: multiset<Card>, x: Card)
    requires Distinct(keys)
    ensures TallyOf(keys, m + multiset{x}) == TallyOf(keys, m) + (if x in keys then 1 else 0)
  {
    if keys != [] {
      assert Distinct(keys[1..]);
      TallyAdd(keys[1..], m, x);
      if x == keys[0] {
        assert x !in keys[1..];
      }
    }
  }

  lemma {:induction false} TallyOfNone(keys: seq<Card>)
    ensures TallyOf(keys, multiset{}) == 0
  {
    if keys != [] {
      TallyOfNone(keys[1..]);
    }
  }

  lemma {:induction false} TallyOfCards(s: seq<Card>)
    ensures TallyOf(AllCards, multiset(s)) == |s|
  {
    if s == [] {
      TallyOfNone(AllCards);
    } else {
      var init, last := s[..|s| - 1], s[|s| - 1];
      assert s == init + [last];
      assert multiset(s) == multiset(init) + multiset{last};
      TallyOfCards(init);
      AllCardsDistinct();
      TallyAdd(AllCards, multiset(init), last);
      InAllCards(last);
    }
  }

  lemma InAllCards(c: Card)
    ensures c in AllCards
  {
    assert AllCards[CardRank(c)] == c;
  }

  lemma AllCardsDistinct()
    ensures Distinct(AllCards)
  {
    forall i, j | 0 <= i < j < |AllCards| ensures AllCards[i] != AllCards[j] {
      assert CardRank(AllCards[i]) == i && CardRank(AllCards[j]) == j;
    }
  }

  lemma {:induction false} TallySame(keys: seq<Card>, counts: map<Card, nat>, m: multiset<Card>)
    requires forall c :: CountOf(counts, c) == m[c]
    ensures Tally(keys, counts) == TallyOf(keys, m)
  {
    if keys != [] {
      TallySame(keys[1..], counts, m);
    }
  }

  /** `HandType::get_card_counts`: a card is a key exactly when it occurs, its value
      is its number of occurrences, and the counts add up to the number of cards. */
  method GetCardCounts(cards: seq<Card>) returns (counts: map<Card, nat>)
    ensures forall c :: c in counts <==> c in cards
    ensures forall c :: CountOf(counts, c) == multiset(cards)[c]
    ensures Tally(AllCards, counts) == |cards|
  {
    counts := map[];
    var i := 0;
    while i < |cards|
      invariant 0 <= i <= |cards|
      invariant forall c :: c in counts <==> c in cards[..i]
      invariant forall c :: CountOf(counts, c) == multiset(cards[..i])[c]
    {
      var card := cards[i];
      assert cards[..i + 1] == cards[..i] + [card];
      if card in counts {
        counts := counts[card := counts[card] + 1];
      } else {
        counts := counts[card := 1];
      }
      i := i + 1;
    }
    assert cards[..i] == cards;
    TallySame(AllCards, counts, multiset(cards));
    TallyOfCards(cards);
  }

  /** `HandType::get_card_with_count`: some key whose count is `count`, found in the
      map's iteration order (left open here), or `None` when no key has it. */
  method GetCardWithCount(counts: map<Card, nat>, count: nat) returns (r: Option<Card>)
    ensures r.Some? ==> r.value in counts && counts[r.value] == count
    ensures r.None? <==> forall c :: c in counts ==> counts[c] != count
  {
    var keys := counts.Keys;
    while keys != {}
      invariant keys <= counts.Keys
      invariant forall c :: c in counts && c !in keys ==> counts[c] != count
      decreases |keys|
    {
      var key :| key in keys;
      if counts[key] == count {
        return Some(key);
      }
      keys := keys - {key};
    }
    return None;
  }

  function Jokers(cards: seq<Card>): nat {
    multiset(cards)[Joker]
  }

  /** `c` is an answer `get_card_with_frequency(f)` may give: the Joker when the
      Jokers alone make `f`, otherwise a card present that together with the Jokers
      makes `f`. */
  predicate FitsFrequency(cards: seq<Card>, f: nat, c: Card) {
    if c == Joker then Jokers(cards) == f
    else Jokers(cards) != f && c in multiset(cards) && multiset(cards)[c] + Jokers(cards) == f
  }

  predicate HasFrequency(cards: seq<Card>, f: nat) {
    Jokers(cards) == f
    || exists c :: c != Joker && c in multiset(cards) && multiset(cards)[c] + Jokers(cards) == f
  }

  /** `HandType::get_card_with_frequency`. `frequency - jokers_available` is a `u64`
      subtraction, so the caller must not ask for fewer than the Jokers held. */
  method GetCardWithFrequency(frequency: nat, cards: Cards) returns (r: Option<Card>)
    requires Jokers(cards) <= frequency
    ensures r.Some? <==> HasFrequency(cards, frequency)
    ensures r.Some? ==> FitsFrequency(cards, frequency, r.value)
    ensures r == Some(Joker) <==> Jokers(cards) == frequency
  {
    var counts := GetCardCounts(cards);
    var jokersAvailable := CountOf(counts, Joker);
    FrequencyLeft(counts, cards, frequency);
    counts := counts - {Joker};
    if jokersAvailable == frequency {
      return Some(Joker);
    }
    r := GetCardWithCount(counts, frequency - jokersAvailable);
  }

  /** With the Joker removed from the counts, the keys with `f` less the Jokers left
      are the cards that fit `f`, and when there is none no card but the Joker has
      the frequency. */
  lemma FrequencyLeft(counts: map<Card, nat>, cards: seq<Card>, f: nat)
    requires forall c :: c in counts <==> c in cards
    requires forall c :: CountOf(counts, c) == multiset(cards)[c]
    requires Jokers(cards) <= f
    ensures CountOf(counts, Joker) == Jokers(cards)
    ensures forall c :: c in counts - {Joker} && (counts - {Joker})[c] == f - Jokers(cards) ==> FitsFrequency(cards, f, c) || Jokers(cards) == f
    ensures (forall c :: c in counts - {Joker} ==> (counts - {Joker})[c] != f - Jokers(cards))
            ==> (HasFrequency(cards, f) <==> Jokers(cards) == f)
  {
    var left := counts - {Joker};
    forall c | c in left && left[c] == f - Jokers(cards)
      ensures FitsFrequency(cards, f, c) || Jokers(cards) == f
    {
      RemovedCounts(counts, cards, {Joker}, c);
    }
    if (forall c :: c in left ==> left[c] != f - Jokers(cards)) && HasFrequency(cards, f) && Jokers(cards) != f {
      var c :| c != Joker && c in multiset(cards) && multiset(cards)[c] + Jokers(cards) == f;
      RemovedCounts(counts, cards, {Joker}, c);
      assert false;
    }
  }

  /** With the Joker and `x` removed from the counts, the keys with `f2` left are
      exactly the partners of `x`. */
  lemma PartnersLeft(counts: map<Card, nat>, cards: seq<Card>, x: Card, f2: nat)
    requires forall c :: c in counts <==> c in cards
    requires forall c :: CountOf(counts, c) == multiset(cards)[c]
    ensures forall d :: d in counts - {Joker} - {x} && (counts - {Joker} - {x})[d] == f2 <==> IsPartner(cards, x, d, f2)
  {
    var left := counts - {Joker} - {x};
    assert left == counts - {Joker, x};
    forall d ensures d in left && left[d] == f2 <==> IsPartner(cards, x, d, f2) {
      RemovedCounts(counts, cards, {Joker, x}, d);
    }
  }

  /** What is left of the counts once some cards are removed from the map. */
  lemma RemovedCounts(counts: map<Card, nat>, cards: seq<Card>, removed: set<Card>, c: Card)
    requires forall c :: c in counts <==> c in cards
    requires forall c :: CountOf(counts, c) == multiset(cards)[c]
    ensures c in counts - removed <==> c !in removed && c in multiset(cards)
    ensures c in counts - removed ==> (counts - removed)[c] == multiset(cards)[c]
  {
    assert CountOf(counts, c) == multiset(cards)[c];
  }

  /** `c2` can be the second card of `get_cards_with_frequencies(_, f2)` after `c1`. */
  predicate IsPartner(cards: seq<Card>, c1: Card, c2: Card, f2: nat) {
    c2 != Joker && c2 != c1 && c2 in multiset(cards) && multiset(cards)[c2] == f2
  }

  predicate HasPair(cards: seq<Card>, f1: nat, f2: nat) {
    exists c1, c2 :: FitsFrequency(cards, f1, c1) && IsPartner(cards, c1, c2, f2)
  }

  /** Whichever first card the map order picks, a partner is left for it as soon as
      any first card has one. */
  lemma ChoiceIrrelevant(cards: seq<Card>, f1: nat, f2: nat, x: Card, c1: Card, c2: Card) returns (d: Card)
    requires FitsFrequency(cards, f1, x)
    requires FitsFrequency(cards, f1, c1) && IsPartner(cards, c1, c2, f2)
    ensures IsPartner(cards, x, d, f2)
  {
    if c2 != x {
      d := c2;
    } else {
      assert Jokers(cards) != f1 && c1 != Joker;
      d := c1;
    }
  }

  /** A pair starts with a card of the first frequency. */
  lemma PairHasFirst(cards: seq<Card>, f1: nat, f2: nat)
    ensures HasPair(cards, f1, f2) ==> HasFrequency(cards, f1)
  {
    if HasPair(cards, f1, f2) {
      var c1, c2 :| FitsFrequency(cards, f1, c1) && IsPartner(cards, c1, c2, f2);
      if c1 != Joker {
        assert c1 in multiset(cards) && multiset(cards)[c1] + Jokers(cards) == f1;
      }
    }
  }

  lemma NoPartnerNoPair(cards: seq<Card>, f1: nat, f2: nat, x: Card)
    requires FitsFrequency(cards, f1, x)
    requires forall d :: !IsPartner(cards, x, d, f2)
    ensures !HasPair(cards, f1, f2)
  {
    if HasPair(cards, f1, f2) {
      var c1, c2 :| FitsFrequency(cards, f1, c1) && IsPartner(cards, c1, c2, f2);
      var d := ChoiceIrrelevant(cards, f1, f2, x, c1, c2);
    }
  }

  /** `HandType::get_cards_with_frequencies`: a first card as `get_card_with_frequency`
      gives it, then a second card, neither the Joker nor the first, with exactly `f2`
      copies. Whether a pair is found does not depend on the map order. */
  method GetCardsWithFrequencies(f1: nat, f2: nat, cards: Cards) returns (r: Option<(Card, Card)>)
    requires Jokers(cards) <= f1
    ensures r.Some? ==> FitsFrequency(cards, f1, r.value.0) && IsPartner(cards, r.value.0, r.value.1, f2)
    ensures r.Some? <==> HasPair(cards, f1, f2)
  {
    var card1 := GetCardWithFrequency(f1, cards);
    PairHasFirst(cards, f1, f2);
    if card1.None? {
      return None;
    }
    var x := card1.value;
    var counts := GetCardCounts(cards);
    PartnersLeft(counts, cards, x, f2);
    counts := counts - {Joker};
    counts := counts - {x};
    var card2 := GetCardWithCount(counts, f2);
    if card2.None? {
      NoPartnerNoPair(cards, f1, f2, x);
      return None;
    }
    var y := card2.value;
    assert IsPartner(cards, x, y, f2);
    return Some((x, y));
  }

  // ================================================================ classification

  /** The type `HandType::from_cards` gives: the first test of its chain that succeeds. */
  function Classify(cards: Cards): HandType {
    if HasFrequency(cards, 5) then FiveOfAKind
    else if HasFrequency(cards, 4) then FourOfAKind
    else if HasPair(cards, 3, 2) then FullHouse
    else if HasFrequency(cards, 3) then ThreeOfAKind
    else if HasPair(cards, 2, 2) then TwoPair
    else if HasFrequency(cards, 2) then OnePair
    else HighCard
  }

  lemma {:induction false} AllOneCard(s: seq<Card>, c: Card)
    requires forall i :: 0 <= i < |s| ==> s[i] == c
    ensures multiset(s)[c] == |s|
  {
    if s != [] {
      assert s == [s[0]] + s[1..];
      AllOneCard(s[1..], c);
    }
  }

  lemma {:induction false} TwoCounts(s: seq<Card>, c: Card, d: Card)
    requires c != d
    ensures multiset(s)[c] + multiset(s)[d] <= |s|
  {
    if s != [] {
      assert s == [s[0]] + s[1..];
      TwoCounts(s[1..], c, d);
    }
  }

  /** The chain never asks for fewer cards than the Jokers held: four or five Jokers
      already make five of a kind, and three Jokers make at least four of a kind. */
  lemma JokerBound(cards: Cards)
    ensures !HasFrequency(cards, 5) ==> Jokers(cards) <= 3
    ensures !HasFrequency(cards, 5) && !HasFrequency(cards, 4) ==> Jokers(cards) <= 2
  {
    var j := Jokers(cards);
    if 3 <= j < 5 {
      if forall i :: 0 <= i < 5 ==> cards[i] == Joker {
        AllOneCard(cards, Joker);
      }
      var i :| 0 <= i < 5 && cards[i] != Joker;
      var x := cards[i];
      assert x in multiset(cards);
      TwoCounts(cards, x, Joker);
      assert multiset(cards)[x] + j == 5 || multiset(cards)[x] + j == 4;
    }
  }

  /** `HandType::from_cards`: every test of the chain is asked in turn. */
  method FromCards(cards: Cards) returns (t: HandType)
    ensures t == Classify(cards)
  {
    JokerBound(cards);
    var five := GetCardWithFrequency(5, cards);
    if five.Some? {
      return FiveOfAKind;
    }
    var four := GetCardWithFrequency(4, cards);
    if four.Some? {
      return FourOfAKind;
    }
    var fullHouse := GetCardsWithFrequencies(3, 2, cards);
    if fullHouse.Some? {
      return FullHouse;
    }
    var three := GetCardWithFrequency(3, cards);
    if three.Some? {
      return ThreeOfAKind;
    }
    var twoPair := GetCardsWithFrequencies(2, 2, cards);
    if twoPair.Some? {
      return TwoPair;
    }
    var pair := GetCardWithFrequency(2, cards);
    if pair.Some? {
      return OnePair;
    }
    return HighCard;
  }

  /** Five Jokers are five of a kind. */
  lemma FiveJokers(cards: Cards)
    requires forall i :: 0 <= i < 5 ==> cards[i] == Joker
    ensures Classify(cards) == FiveOfAKind
  {
    AllOneCard(cards, Joker);
  }

  predicate HasCount(cards: seq<Card>, n: nat) {
    exists c :: c in multiset(cards) && multiset(cards)[c] == n
  }

  predicate HasTwoPairs(cards: seq<Card>) {
    exists c, d :: c != d && c in multiset(cards) && multiset(cards)[c] == 2 && multiset(cards)[d] == 2
  }

  /** The usual table of hand types, by how often each card occurs. */
  function CountPattern(cards: Cards): HandType {
    if HasCount(cards, 5) then FiveOfAKind
    else if HasCount(cards, 4) then FourOfAKind
    else if HasCount(cards, 3) && HasCount(cards, 2) then FullHouse
    else if HasCount(cards, 3) then ThreeOfAKind
    else if HasTwoPairs(cards) then TwoPair
    else if HasCount(cards, 2) then OnePair
    else HighCard
  }

  /** Without Jokers the chain is the plain table of occurrence counts. */
  lemma NoJokerPattern(cards: Cards)
    requires Jokers(cards) == 0
    ensures Classify(cards) == CountPattern(cards)
  {
    NoJokerFrequency(cards, 5);
    NoJokerFrequency(cards, 4);
    NoJokerFrequency(cards, 3);
    NoJokerFrequency(cards, 2);
    NoJokerFullHouse(cards);
    NoJokerTwoPair(cards);
  }

  lemma NoJokerFrequency(cards: Cards, f: nat)
    requires Jokers(cards) == 0 && f > 0
    ensures HasFrequency(cards, f) <==> HasCount(cards, f)
  {
    if HasCount(cards, f) {
      var c :| c in multiset(cards) && multiset(cards)[c] == f;
      assert c != Joker;
    }
  }

  lemma NoJokerFullHouse(cards: Cards)
    requires Jokers(cards) == 0
    ensures HasPair(cards, 3, 2) <==> HasCount(cards, 3) && HasCount(cards, 2)
  {
    if HasCount(cards, 3) && HasCount(cards, 2) {
      var c :| c in multiset(cards) && multiset(cards)[c] == 3;
      var d :| d in multiset(cards) && multiset(cards)[d] == 2;
      assert FitsFrequency(cards, 3, c) && IsPartner(cards, c, d, 2);
    }
    if HasPair(cards, 3, 2) {
      var c1, c2 :| FitsFrequency(cards, 3, c1) && IsPartner(cards, c1, c2, 2);
      assert multiset(cards)[c1] == 3;
    }
  }

  lemma NoJokerTwoPair(cards: Cards)
    requires Jokers(cards) == 0
    ensures HasPair(cards, 2, 2) <==> HasTwoPairs(cards)
  {
    if HasTwoPairs(cards) {
      var c, d :| c != d && c in multiset(cards) && multiset(cards)[c] == 2 && multiset(cards)[d] == 2;
      assert FitsFrequency(cards, 2, c) && IsPartner(cards, c, d, 2);
    }
    if HasPair(cards, 2, 2) {
      var c1, c2 :| FitsFrequency(cards, 2, c1) && IsPartner(cards, c1, c2, 2);
      assert c1 != c2 && c1 in multiset(cards) && multiset(cards)[c1] == 2 && multiset(cards)[c2] == 2;
    }
  }

  // ================================================================ hands

  datatype Hand = Hand(cards: Cards, bid: nat)

  /** The derived `Ord` on `[Card; 5]`: the first differing position decides. */
  function CardsCmp(x: seq<Card>, y: seq<Card>): Ordering
    requires |x| == |y|
  {
    if x == [] then Equal
    else if CardCmp(x[0], y[0]) != Equal then CardCmp(x[0], y[0])
    else CardsCmp(x[1..], y[1..])
  }

  /** `Ord for Hand`: the hand types first, then the cards; the bid plays no part. */
  function HandCmp(a: Hand, b: Hand): Ordering {
    var t := Compare(TypeRank(Classify(a.cards)), TypeRank(Classify(b.cards)));
    if t == Equal then CardsCmp(a.cards, b.cards) else t
  }

  /** `Hand::cmp`: compare the types; when they are equal, walk the five positions
      and return at the first card that differs. */
  method Cmp(a: Hand, b: Hand) returns (r: Ordering)
    ensures r == HandCmp(a, b)
  {
    var selfType := FromCards(a.cards);
    var otherType := FromCards(b.cards);
    var typeOrdering := Compare(TypeRank(selfType), TypeRank(otherType));
    if typeOrdering == Equal {
      var index := 0;
      while index < 5
        invariant 0 <= index <= 5
        invariant CardsCmp(a.cards, b.cards) == CardsCmp(a.cards[index..], b.cards[index..])
        invariant a.cards[..index] == b.cards[..index]
      {
        var cardOrdering := CardCmp(a.cards[index], b.cards[index]);
        if cardOrdering == Greater {
          return Greater;
        }
        if cardOrdering == Less {
          return Less;
        }
        assert a.cards[index..][1..] == a.cards[index + 1..] && b.cards[index..][1..] == b.cards[index + 1..];
        assert a.cards[index] == b.cards[index];
        assert a.cards[..index + 1] == a.cards[..index] + [a.cards[index]];
        assert b.cards[..index + 1] == b.cards[..index] + [b.cards[index]];
        index := index + 1;
      }
      return Equal;
    }
    return typeOrdering;
  }

  lemma {:induction false} CardsCmpEqual(x: seq<Card>, y: seq<Card>)
    requires |x| == |y|
    ensures CardsCmp(x, y) == Equal <==> x == y
  {
    if x != [] {
      CardsCmpEqual(x[1..], y[1..]);
      if CardRank(x[0]) == CardRank(y[0]) {
        assert x[0] == y[0];
        assert x == [x[0]] + x[1..] && y == [y[0]] + y[1..];
      }
    }
  }

  lemma {:induction false} CardsCmpReverse(x: seq<Card>, y: seq<Card>)
    requires |x| == |y|
    ensures CardsCmp(x, y) == CardsCmp(y, x).Reverse()
  {
    if x != [] {
      CardsCmpReverse(x[1..], y[1..]);
    }
  }

  lemma {:induction false} CardsCmpTransitive(x: seq<Card>, y: seq<Card>, z: seq<Card>)
    requires |x| == |y| == |z|
    requires CardsCmp(x, y) != Greater && CardsCmp(y, z) != Greater
    ensures CardsCmp(x, z) != Greater
  {
    if x != [] {
      if CardRank(x[0]) == CardRank(y[0]) && CardRank(y[0]) == CardRank(z[0]) {
        CardsCmpTransitive(x[1..], y[1..], z[1..]);
      }
    }
  }

  /** Two hands compare `Equal` exactly when they hold the same cards in the same
      order, whatever their bids. */
  lemma HandCmpEqual(a: Hand, b: Hand)
    ensures HandCmp(a, b) == Equal <==> a.cards == b.cards
  {
    CardsCmpEqual(a.cards, b.cards);
  }

  /** Comparing the other way round gives the reverse answer. */
  lemma HandCmpAntisymmetric(a: Hand, b: Hand)
    ensures HandCmp(a, b) == HandCmp(b, a).Reverse()
  {
    CardsCmpReverse(a.cards, b.cards);
  }

  lemma HandCmpTransitive(a: Hand, b: Hand, c: Hand)
    requires HandCmp(a, b) != Greater && HandCmp(b, c) != Greater
    ensures HandCmp(a, c) != Greater
  {
    if TypeRank(Classify(a.cards)) == TypeRank(Classify(b.cards)) == TypeRank(Classify(c.cards)) {
      CardsCmpTransitive(a.cards, b.cards, c.cards);
    }
  }

  /** A stronger type always wins, whatever the cards. */
  lemma StrongerTypeWins(a: Hand, b: Hand)
    requires TypeRank(Classify(a.cards)) < TypeRank(Classify(b.cards))
    ensures HandCmp(a, b) == Less && HandCmp(b, a) == Greater
  {
  }

  // ================================================================ parsing a hand

  /** The cards of a line, read one letter at a time; the first bad letter panics. */
  function ReadCards(s: string): (r: Result<seq<Card>>)
    ensures r.Ok? <==> forall i :: 0 <= i < |s| ==> s[i] in CardLetters
    ensures r.Ok? ==> |r.value| == |s| && forall i :: 0 <= i < |s| ==> CardFromChar(s[i]) == Ok(r.value[i])
  {
    if s == [] then Ok([])
    else match CardFromChar(s[0])
      case Err(e) => Err(e)
      case Ok(c) =>
        match ReadCards(s[1..])
        case Err(e) => Err(e)
        case Ok(rest) =>
          assert forall i :: 1 <= i < |s| ==> s[i] == s[1..][i - 1];
          Ok([c] + rest)
  }

  /** `Hand::from_string`: the segments between spaces; every letter of the first
      becomes a card (any bad letter panics) and its first five are the hand, in
      order; the last segment is the bid. An absent segment, fewer than five letters
      or a bid that is not a `u64` panics. */
  function HandFromString(input: string): (r: Result<Hand>)
    ensures var segments := Split(input, {' '});
            r.Ok? <==> (|segments| >= 1 && |segments[0]| >= 5
                        && (forall i :: 0 <= i < |segments[0]| ==> segments[0][i] in CardLetters)
                        && ParseU64(segments[|segments| - 1]).Some?)
    ensures var segments := Split(input, {' '});
            r.Ok? ==> (forall i :: 0 <= i < 5 ==> CardFromChar(segments[0][i]) == Ok(r.value.cards[i]))
                      && Some(r.value.bid) == ParseU64(segments[|segments| - 1])
  {
    var segments := Split(input, {' '});
    if |segments| == 0 then Err("no segments")
    else match ReadCards(segments[0])
      case Err(e) => Err(e)
      case Ok(cardsVec) =>
        if |cardsVec| < 5 then Err("fewer than five cards")
        else match ParseU64(segments[|segments| - 1])
          case None => Err("bid is not a number")
          case Some(bid) => Ok(Hand(cardsVec[..5], bid))
  }

  /** The text of a hand: its five letters, a space, its bid. */
  function ShowHand(h: Hand): string {
    Letters(h.cards) + " " + ShowNat(h.bid)
  }

  /** Two tidy words with one space between them split back into the two words. */
  lemma SplitTwoWords(w1: string, w2: string)
    requires Tidy(w1) && Free(w1, {' '}) && Tidy(w2) && Free(w2, {' '})
    ensures Split(w1 + " " + w2, {' '}) == [w1, w2]
  {
    SplitConcat(w1, ' ', w2, {' '});
    SplitWithout(w1, {' '});
    SplitWithout(w2, {' '});
    NonBlankOfTidy([w1, w2]);
  }

  function Letters(cards: Cards): (s: string)
    ensures |s| == 5 && forall i :: 0 <= i < 5 ==> s[i] == CardChar(cards[i])
  {
    [CardChar(cards[0]), CardChar(cards[1]), CardChar(cards[2]), CardChar(cards[3]), CardChar(cards[4])]
  }

  lemma LettersTidy(cards: Cards)
    ensures Tidy(Letters(cards)) && Free(Letters(cards), {' '})
    ensures forall i :: 0 <= i < 5 ==> Letters(cards)[i] in CardLetters
  {
    forall i | 0 <= i < 5 ensures Letters(cards)[i] in CardLetters && !IsWhitespace(Letters(cards)[i]) {
      CardCharLetter(cards[i]);
    }
  }

  /** A card's letter is one of the thirteen, and none of them is blank. */
  lemma CardCharLetter(c: Card)
    ensures CardChar(c) in CardLetters && !IsWhitespace(CardChar(c))
  {
    CardCharRoundTrip(c);
    assert forall i :: 0 <= i < |CardLetters| ==> !IsWhitespace(CardLetters[i]);
  }

  lemma ReadLetters(cards: Cards)
    ensures ReadCards(Letters(cards)).Ok? && ReadCards(Letters(cards)).value == cards
  {
    LettersTidy(cards);
    var rc := ReadCards(Letters(cards));
    forall i | 0 <= i < 5 ensures rc.value[i] == cards[i] {
      CardCharRoundTrip(cards[i]);
    }
  }

  /** Reading a written hand gives the hand back. */
  lemma HandRoundTrip(h: Hand)
    requires h.bid <= U64_MAX
    ensures HandFromString(ShowHand(h)) == Ok(h)
  {
    var digits := ShowNat(h.bid);
    assert ShowHand(h) == Letters(h.cards) + " " + digits;
    LettersTidy(h.cards);
    SplitTwoWords(Letters(h.cards), digits);
    ReadLetters(h.cards);
    ParseShow(h.bid, U64_MAX);
    assert h.cards[..5] == h.cards;
  }

  // ================================================================ ranking (camel_cards)

  /** `cmp` is a total preorder: reversing the arguments reverses the answer, and
      "not `Greater`" is transitive. */
  ghost predicate Preorder<T(!new)>(cmp: (T, T) -> Ordering) {
    (forall a, b :: cmp(a, b) == cmp(b, a).Reverse())
    && (forall a, b, c :: cmp(a, b) != Greater && cmp(b, c) != Greater ==> cmp(a, c) != Greater)
  }

  /** Ordered as `sort_by(|a, b| b.cmp(a))` leaves it: from the greatest in `cmp`
      down to the least. */
  predicate Descending<T>(cmp: (T, T) -> Ordering, s: seq<T>) {
    forall i, j :: 0 <= i < j < |s| ==> cmp(s[j], s[i]) != Greater
  }

  /** The elements that compare `Equal` to `x`, in their order. */
  function EqualTo<T>(cmp: (T, T) -> Ordering, s: seq<T>, x: T): seq<T> {
    if s == [] then [] else Matching(cmp, s[0], x) + EqualTo(cmp, s[1..], x)
  }

  /** `[y]` when `y` compares `Equal` to `x`, otherwise nothing. */
  function Matching<T>(cmp: (T, T) -> Ordering, y: T, x: T): seq<T> {
    if cmp(y, x) == Equal then [y] else []
  }

  lemma EqualToCons<T>(cmp: (T, T) -> Ordering, y: T, s: seq<T>, x: T)
    ensures EqualTo(cmp, [y] + s, x) == Matching(cmp, y, x) + EqualTo(cmp, s, x)
  {
    assert ([y] + s)[1..] == s;
  }

  /** Insert `h` after every element that is at least as great. */
  function InsertBy<T>(cmp: (T, T) -> Ordering, h: T, s: seq<T>): (r: seq<T>)
    ensures multiset(r) == multiset(s) + multiset{h}
    ensures |r| == |s| + 1
  {
    if s == [] then [h]
    else if cmp(h, s[0]) == Greater then [h] + s
    else
      var r := [s[0]] + InsertBy(cmp, h, s[1..]);
      assert s == [s[0]] + s[1..];
      r
  }

  /** A stable sort from the greatest to the least; this model inserts from the back. */
  function SortBy<T>(cmp: (T, T) -> Ordering, s: seq<T>): (r: seq<T>)
    ensures |r| == |s|
  {
    if s == [] then [] else InsertBy(cmp, s[|s| - 1], SortBy(cmp, s[..|s| - 1]))
  }

  /** Every element is at most `y`. */
  predicate AllBelow<T>(cmp: (T, T) -> Ordering, s: seq<T>, y: T) {
    forall j :: 0 <= j < |s| ==> cmp(s[j], y) != Greater
  }

  lemma {:induction false} InsertBySorted<T(!new)>(cmp: (T, T) -> Ordering, h: T, s: seq<T>)
    requires Preorder(cmp) && Descending(cmp, s)
    ensures Descending(cmp, InsertBy(cmp, h, s))
  {
    if s == [] {
    } else if cmp(h, s[0]) == Greater {
      forall j | 0 <= j < |s| ensures cmp(s[j], h) != Greater {
        assert cmp(s[0], h) == Less;
        if j > 0 {
          assert cmp(s[j], s[0]) != Greater;
        }
      }
      ConsDescending(cmp, h, s);
    } else {
      InsertBySorted(cmp, h, s[1..]);
      forall j | 0 <= j < |s[1..]| ensures cmp(s[1..][j], s[0]) != Greater {
        assert s[1..][j] == s[j + 1];
      }
      InsertByBelow(cmp, h, s[1..], s[0]);
      ConsDescending(cmp, s[0], InsertBy(cmp, h, s[1..]));
    }
  }

  lemma ConsDescending<T>(cmp: (T, T) -> Ordering, y: T, t: seq<T>)
    requires Descending(cmp, t) && AllBelow(cmp, t, y)
    ensures Descending(cmp, [y] + t)
  {
    var r := [y] + t;
    forall i, j | 0 <= i < j < |r| ensures cmp(r[j], r[i]) != Greater {
      assert r[j] == t[j - 1];
      if i > 0 {
        assert r[i] == t[i - 1];
      }
    }
  }

  /** Inserting an element at most `y` among elements at most `y` keeps them so. */
  lemma InsertByBelow<T>(cmp: (T, T) -> Ordering, h: T, s: seq<T>, y: T)
    requires AllBelow(cmp, s, y) && cmp(h, y) != Greater
    ensures AllBelow(cmp, InsertBy(cmp, h, s), y)
  {
    var t := InsertBy(cmp, h, s);
    forall j | 0 <= j < |t| ensures cmp(t[j], y) != Greater {
      assert t[j] in multiset(t);
      if t[j] != h {
        assert t[j] in multiset(s);
        var m :| 0 <= m < |s| && s[m] == t[j];
      }
    }
  }

  lemma EqualToOne<T>(cmp: (T, T) -> Ordering, y: T, x: T)
    ensures EqualTo(cmp, [y], x) == Matching(cmp, y, x)
  {
    EqualToCons(cmp, y, [], x);
    assert [y] + [] == [y];
  }

  lemma {:induction false} EqualToAppend<T>(cmp: (T, T) -> Ordering, a: seq<T>, b: seq<T>, x: T)
    ensures EqualTo(cmp, a + b, x) == EqualTo(cmp, a, x) + EqualTo(cmp, b, x)
  {
    if a == [] {
      assert a + b == b;
    } else {
      var y, rest := a[0], a[1..];
      assert a == [y] + rest;
      assert a + b == [y] + (rest + b);
      EqualToCons(cmp, y, rest + b, x);
      EqualToAppend(cmp, rest, b, x);
      EqualToCons(cmp, y, rest, x);
      var m := Matching(cmp, y, x);
      assert m + (EqualTo(cmp, rest, x) + EqualTo(cmp, b, x)) == (m + EqualTo(cmp, rest, x)) + EqualTo(cmp, b, x);
    }
  }

  lemma {:induction false} NoneEqualTo<T>(cmp: (T, T) -> Ordering, s: seq<T>, x: T)
    requires forall j :: 0 <= j < |s| ==> cmp(s[j], x) != Equal
    ensures EqualTo(cmp, s, x) == []
  {
    if s != [] {
      NoneEqualTo(cmp, s[1..], x);
    }
  }

  /** Nothing at most `y` compares `Equal` to an `x` that `h`, above `y`, equals. */
  lemma BelowNotEqual<T(!new)>(cmp: (T, T) -> Ordering, h: T, y: T, z: T, x: T)
    requires Preorder(cmp)
    requires cmp(h, y) == Greater && cmp(z, y) != Greater && cmp(h, x) == Equal
    ensures cmp(z, x) != Equal
  {
  }

  /** Inserting puts `h` behind every element that compares `Equal` to it. */
  lemma {:induction false} InsertByStable<T(!new)>(cmp: (T, T) -> Ordering, h: T, s: seq<T>, x: T)
    requires Preorder(cmp) && Descending(cmp, s)
    ensures EqualTo(cmp, InsertBy(cmp, h, s), x) == EqualTo(cmp, s, x) + Matching(cmp, h, x)
  {
    if s == [] {
      EqualToOne(cmp, h, x);
    } else if cmp(h, s[0]) == Greater {
      InsertInFront(cmp, h, s, x);
    } else {
      var y, rest := s[0], s[1..];
      assert Descending(cmp, rest);
      InsertByStable(cmp, h, rest, x);
      assert [y] + rest == s;
      InsertBehind(cmp, h, y, rest, x);
    }
  }

  /** `h` goes in front of elements all below it, none of which can equal what `h` equals. */
  lemma InsertInFront<T(!new)>(cmp: (T, T) -> Ordering, h: T, s: seq<T>, x: T)
    requires Preorder(cmp) && Descending(cmp, s) && s != [] && cmp(h, s[0]) == Greater
    ensures EqualTo(cmp, InsertBy(cmp, h, s), x) == EqualTo(cmp, s, x) + Matching(cmp, h, x)
  {
    EqualToCons(cmp, h, s, x);
    if cmp(h, x) == Equal {
      forall j | 0 <= j < |s| ensures cmp(s[j], x) != Equal {
        BelowNotEqual(cmp, h, s[0], s[j], x);
      }
      NoneEqualTo(cmp, s, x);
    }
  }

  /** `h` goes behind an element `y` at least as great. */
  lemma InsertBehind<T>(cmp: (T, T) -> Ordering, h: T, y: T, rest: seq<T>, x: T)
    requires cmp(h, y) != Greater
    requires EqualTo(cmp, InsertBy(cmp, h, rest), x) == EqualTo(cmp, rest, x) + Matching(cmp, h, x)
    ensures EqualTo(cmp, InsertBy(cmp, h, [y] + rest), x) == EqualTo(cmp, [y] + rest, x) + Matching(cmp, h, x)
  {
    var t := InsertBy(cmp, h, rest);
    InsertByCons(cmp, h, y, rest);
    EqualToCons(cmp, y, t, x);
    EqualToCons(cmp, y, rest, x);
    AppendAssoc(Matching(cmp, y, x), EqualTo(cmp, rest, x), Matching(cmp, h, x));
  }

  lemma InsertByCons<T>(cmp: (T, T) -> Ordering, h: T, y: T, rest: seq<T>)
    requires cmp(h, y) != Greater
    ensures InsertBy(cmp, h, [y] + rest) == [y] + InsertBy(cmp, h, rest)
  {
    assert ([y] + rest)[0] == y && ([y] + rest)[1..] == rest;
  }

  /** The sort keeps the elements, orders them from the greatest to the least, and
      elements that compare `Equal` keep their input order. */
  lemma SortByCorrect<T(!new)>(cmp: (T, T) -> Ordering, s: seq<T>)
    requires Preorder(cmp)
    ensures Descending(cmp, SortBy(cmp, s))
    ensures multiset(SortBy(cmp, s)) == multiset(s)
    ensures forall x :: EqualTo(cmp, SortBy(cmp, s), x) == EqualTo(cmp, s, x)
  {
    SortBySorted(cmp, s);
    SortByPermutes(cmp, s);
    forall x ensures EqualTo(cmp, SortBy(cmp, s), x) == EqualTo(cmp, s, x) {
      SortByStable(cmp, s, x);
    }
  }

  lemma {:induction false} SortBySorted<T(!new)>(cmp: (T, T) -> Ordering, s: seq<T>)
    requires Preorder(cmp)
    ensures Descending(cmp, SortBy(cmp, s))
  {
    if s != [] {
      SortBySorted(cmp, s[..|s| - 1]);
      InsertBySorted(cmp, s[|s| - 1], SortBy(cmp, s[..|s| - 1]));
    }
  }

  lemma {:induction false} SortByPermutes<T>(cmp: (T, T) -> Ordering, s: seq<T>)
    ensures multiset(SortBy(cmp, s)) == multiset(s)
  {
    if s != [] {
      var init, last := s[..|s| - 1], s[|s| - 1];
      SortByPermutes(cmp, init);
      assert s == init + [last];
    }
  }

  lemma {:induction false} SortByStable<T(!new)>(cmp: (T, T) -> Ordering, s: seq<T>, x: T)
    requires Preorder(cmp)
    ensures EqualTo(cmp, SortBy(cmp, s), x) == EqualTo(cmp, s, x)
  {
    if s != [] {
      var init, last := s[..|s| - 1], s[|s| - 1];
      SortByStable(cmp, init, x);
      SortBySorted(cmp, init);
      InsertByStable(cmp, last, SortBy(cmp, init), x);
      EqualToSnoc(cmp, s, x);
    }
  }

  lemma EqualToSnoc<T>(cmp: (T, T) -> Ordering, s: seq<T>, x: T)
    requires s != []
    ensures EqualTo(cmp, s, x) == EqualTo(cmp, s[..|s| - 1], x) + Matching(cmp, s[|s| - 1], x)
  {
    assert s == s[..|s| - 1] + [s[|s| - 1]];
    EqualToAppend(cmp, s[..|s| - 1], [s[|s| - 1]], x);
    EqualToOne(cmp, s[|s| - 1], x);
  }

  lemma HandCmpPreorder()
    ensures Preorder(HandCmp)
  {
    forall a, b ensures HandCmp(a, b) == HandCmp(b, a).Reverse() {
      HandCmpAntisymmetric(a, b);
    }
    forall a, b, c | HandCmp(a, b) != Greater && HandCmp(b, c) != Greater
      ensures HandCmp(a, c) != Greater
    {
      HandCmpTransitive(a, b, c);
    }
  }

  /** The order `camel_cards` puts the hands in: `hands.sort_by(|a, b| b.cmp(a))`. */
  function RankOrder(hands: seq<Hand>): seq<Hand> {
    SortBy(HandCmp, hands)
  }

  /** The ranking keeps every hand, puts them from the weakest (rank 1) to the
      strongest, and hands with the same cards keep their input order. */
  lemma RankOrderCorrect(hands: seq<Hand>)
    ensures multiset(RankOrder(hands)) == multiset(hands)
    ensures forall i, j :: 0 <= i < j < |hands| ==> HandCmp(RankOrder(hands)[j], RankOrder(hands)[i]) != Greater
    ensures forall h :: EqualTo(HandCmp, RankOrder(hands), h) == EqualTo(HandCmp, hands, h)
  {
    HandCmpPreorder();
    SortByCorrect(HandCmp, hands);
  }

  /** `Hand::get_winnings`: the bid times the rank. */
  function GetWinnings(h: Hand, rank: nat): nat {
    h.bid * rank
  }

  /** `Hand::get_winnings` summed over the ranks: the hand at index `i` has rank
      `i + 1`. */
  function RankedWinnings(hs: seq<Hand>): nat {
    if hs == [] then 0 else RankedWinnings(hs[..|hs| - 1]) + GetWinnings(hs[|hs| - 1], |hs|)
  }

  /** The total of `camel_cards`: sort from weakest to strongest, then add up each
      bid times its rank. */
  method TotalWinnings(hands: seq<Hand>) returns (winnings: nat)
    ensures winnings == RankedWinnings(RankOrder(hands))
  {
    var sorted := RankOrder(hands);
    winnings := 0;
    var index := 0;
    while index < |sorted|
      invariant 0 <= index <= |sorted|
      invariant winnings == RankedWinnings(sorted[..index])
    {
      var rank := index + 1;
      assert sorted[..index + 1][..index] == sorted[..index];
      winnings := winnings + GetWinnings(sorted[index], rank);
      index := index + 1;
    }
    assert sorted[..index] == sorted;
  }

  /** `parse_hands`: one hand per line; the first bad line panics. */
  function ParseHands(lines: seq<string>): (r: Result<seq<Hand>>)
    ensures r.Ok? <==> forall k :: 0 <= k < |lines| ==> HandFromString(lines[k]).Ok?
    ensures r.Ok? ==> |r.value| == |lines|
                      && forall k :: 0 <= k < |lines| ==> HandFromString(lines[k]) == Ok(r.value[k])
  {
    var rs := seq(|lines|, k requires 0 <= k < |lines| => HandFromString(lines[k]));
    assert forall k :: 0 <= k < |lines| ==> rs[k] == HandFromString(lines[k]);
    AllOk(rs)
  }
}
