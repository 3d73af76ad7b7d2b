/**
 * The card helpers of src/composables/card.js: choosing the suit of a new
 * card so that no two cards on the table look alike, and the path of a
 * card's picture.
 */
module Cards {
  import opened Wrappers
  import opened Numerals

  /** `SUITS`: spades, hearts, clubs, diamonds, in the order they are tried. */
  const Suits: seq<char> := ['S', 'H', 'C', 'D']

  /** A card: its number and its suit, which is `undefined` when none was free. */
  datatype Card = Card(number: int, suit: Option<char>)

  /**
   * `currentCards.some((c) => c?.number === number && c?.suit === s)`: some
   * card on the table already has this number and this suit. Empty places
   * (`null` or `undefined`) match nothing.
   */
  predicate Taken(currentCards: seq<Option<Card>>, number: int, s: char) {
    exists i :: 0 <= i < |currentCards| && currentCards[i].Some? &&
      currentCards[i].value.number == number && currentCards[i].value.suit == Some(s)
  }

  /** `SUITS.find(...)` from position `k` on: the first suit not taken for `number`. */
  function FreeSuitFrom(number: int, currentCards: seq<Option<Card>>, k: nat): (suit: Option<char>)
    requires k <= |Suits|
    ensures suit.Some? ==> suit.value in Suits[k..] && !Taken(currentCards, number, suit.value)
    ensures suit.None? <==> forall j :: k <= j < |Suits| ==> Taken(currentCards, number, Suits[j])
    decreases |Suits| - k
  {
    if k == |Suits| then None
    else if !Taken(currentCards, number, Suits[k]) then Some(Suits[k])
    else FreeSuitFrom(number, currentCards, k + 1)
  }

  /** `pickCard` (lines 4-11): the number as given, with the first free suit. */
  function PickCard(number: int, currentCards: seq<Option<Card>>): (card: Card)
    ensures card.number == number
  {
    Card(number, FreeSuitFrom(number, currentCards, 0))
  }

  /**
   * The suit picked is the first in the order S, H, C, D that no card with
   * the same number has; when all four are taken the suit is undefined.
   */
  lemma {:induction false} PickCardFirstFree(number: int, currentCards: seq<Option<Card>>)
    ensures var suit := PickCard(number, currentCards).suit;
            (suit.None? <==> forall j :: 0 <= j < 4 ==> Taken(currentCards, number, Suits[j])) &&
            (suit.Some? ==> exists k :: 0 <= k < 4 && suit.value == Suits[k] &&
                              !Taken(currentCards, number, Suits[k]) &&
                              forall j :: 0 <= j < k ==> Taken(currentCards, number, Suits[j]))
  {
    FirstFreeFrom(number, currentCards, 0);
  }

  lemma {:induction false} FirstFreeFrom(number: int, currentCards: seq<Option<Card>>, k: nat)
    requires k <= |Suits|
    ensures var suit := FreeSuitFrom(number, currentCards, k);
            suit.Some? ==> exists m :: k <= m < 4 && suit.value == Suits[m] &&
                             !Taken(currentCards, number, Suits[m]) &&
                             forall j :: k <= j < m ==> Taken(currentCards, number, Suits[j])
    decreases |Suits| - k
  {
    if k < |Suits| && Taken(currentCards, number, Suits[k]) {
      FirstFreeFrom(number, currentCards, k + 1);
    }
  }

  /** Empty places on the table never take a suit: dropping one changes nothing. */
  lemma EmptyPlacesIgnored(number: int, before: seq<Option<Card>>, after: seq<Option<Card>>)
    ensures PickCard(number, before + [None] + after) == PickCard(number, before + after)
  {
    var with := before + [None] + after;
    var without := before + after;
    forall s ensures Taken(with, number, s) <==> Taken(without, number, s) {
      if Taken(with, number, s) {
        var i :| 0 <= i < |with| && with[i].Some? && with[i].value.number == number && with[i].value.suit == Some(s);
        var j := if i < |before| then i else i - 1;
        assert without[j] == with[i];
      }
      if Taken(without, number, s) {
        var j :| 0 <= j < |without| && without[j].Some? && without[j].value.number == number && without[j].value.suit == Some(s);
        var i := if j < |before| then j else j + 1;
        assert with[i] == without[j];
      }
    }
    SameTakenSameSuit(number, with, without, 0);
  }

  lemma {:induction false} SameTakenSameSuit(number: int, xs: seq<Option<Card>>, ys: seq<Option<Card>>, k: nat)
    requires k <= |Suits|
    requires forall s :: Taken(xs, number, s) <==> Taken(ys, number, s)
    ensures FreeSuitFrom(number, xs, k) == FreeSuitFrom(number, ys, k)
    decreases |Suits| - k
  {
    if k < |Suits| {
      SameTakenSameSuit(number, xs, ys, k + 1);
    }
  }

  /** A card picked while a suit is free does not look like any card already on the table. */
  lemma PickedCardIsNew(number: int, currentCards: seq<Option<Card>>)
    requires PickCard(number, currentCards).suit.Some?
    ensures Some(PickCard(number, currentCards)) !in currentCards
  {
    var card := PickCard(number, currentCards);
    forall i | 0 <= i < |currentCards| ensures currentCards[i] != Some(card) {
    }
  }

  // ---------------------------------------------------------------------------
  // getImageUrl

  const UrlPrefix: string := "/24-puzzle/cards/"
  const UrlSuffix: string := ".svg"

  /** `${suit}`: the suit letter, or the text "undefined". */
  function SuitText(suit: Option<char>): string {
    match suit
    case Some(c) => [c]
    case None => "undefined"
  }

  /** `getImageUrl` (lines 13-15): the path of the card's picture. */
  function GetImageUrl(card: Card): (url: string)
    ensures |url| > |UrlPrefix| + |UrlSuffix|
  {
    UrlPrefix + IntText(card.number) + SuitText(card.suit) + UrlSuffix
  }

  /** Reads a picture path back into the card it shows, if it is one. */
  function ParseImageUrl(url: string): Option<Card> {
    if |url| < |UrlPrefix| + |UrlSuffix| || url[..|UrlPrefix|] != UrlPrefix || url[|url| - |UrlSuffix|..] != UrlSuffix then None
    else
      var middle := url[|UrlPrefix|..|url| - |UrlSuffix|];
      if |middle| >= 9 && middle[|middle| - 9..] == "undefined" then
        match ReadInt(middle[..|middle| - 9])
        case Some(n) => Some(Card(n, None))
        case None => None
      else if |middle| >= 1 then
        match ReadInt(middle[..|middle| - 1])
        case Some(n) => Some(Card(n, Some(middle[|middle| - 1])))
        case None => None
      else None
  }

  /**
   * The path names the card: reading it back gives the number and the suit
   * (or its absence), so two such cards share a picture only if they are equal.
   */
  lemma ImageUrlRoundTrip(card: Card)
    requires card.suit.None? || card.suit.value in Suits
    ensures ParseImageUrl(GetImageUrl(card)) == Some(card)
  {
    var url := GetImageUrl(card);
    var number := IntText(card.number);
    var middle := number + SuitText(card.suit);
    assert url == UrlPrefix + middle + UrlSuffix;
    assert url[..|UrlPrefix|] == UrlPrefix;
    assert url[|url| - |UrlSuffix|..] == UrlSuffix;
    assert url[|UrlPrefix|..|url| - |UrlSuffix|] == middle;
    IntTextRoundTrip(card.number);
    match card.suit
    case None =>
      assert middle[..|middle| - 9] == number;
    case Some(c) =>
      assert middle[|middle| - 1] == c != 'd';
      assert middle[..|middle| - 1] == number;
  }

  lemma ImageUrlInjective(a: Card, b: Card)
    requires a.suit.None? || a.suit.value in Suits
    requires b.suit.None? || b.suit.value in Suits
    requires GetImageUrl(a) == GetImageUrl(b)
    ensures a == b
  {
    ImageUrlRoundTrip(a);
    ImageUrlRoundTrip(b);
  }
}
