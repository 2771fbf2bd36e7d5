/**
 * The card vocabulary: the fixed table from short card codes (a rank code
 * followed by a suit letter, e.g. "Jd") to the caption shown on the
 * highlight, and the lookup with fallback to the raw code.
 */
module Cards {

  /** The thirteen rank codes: "A", "2" to "10", "J", "Q", "K". */
  const Ranks: set<string> := {"A", "2", "3", "4", "5", "6", "7", "8", "9", "10", "J", "Q", "K"}

  /** The four suit letters: hearts, diamonds, spades, clubs. */
  const Suits: set<char> := {'h', 'd', 's', 'c'}

  function RankName(rank: string): string {
    match rank
    case "A" => "Ace"
    case "J" => "Jack"
    case "Q" => "Queen"
    case "K" => "King"
    case _ => rank
  }

  function SuitName(suit: char): string {
    match suit
    case 'h' => "Hearts"
    case 'd' => "Diamonds"
    case 's' => "Spades"
    case _ => "Clubs"
  }

  /** The 52 card codes: every rank code followed by every suit letter. */
  const CardCodes: set<string> := set rank, suit | rank in Ranks && suit in Suits :: rank + [suit]

  /**
   * The code -> display-name table. Its 52 entries are the service's, one per
   * card code, each "<Rank> of <Suit>" ("Ah" -> "Ace of Hearts", "10c" ->
   * "10 of Clubs", "Jd" -> "Jack of Diamonds"); it is built row by row from
   * the rank and suit names instead of being listed entry by entry.
   */
  const CardMap: map<string, string> :=
    map code | code in CardCodes :: RankName(code[..|code| - 1]) + " of " + SuitName(code[|code| - 1])

  /**
   * Caption text for a target code: its display name, or the code itself
   * when it is not in the table. A card code reads "<Rank> of <Suit>";
   * anything else is shown as it is.
   */
  function Caption(code: string): (text: string)
    ensures IsCardCode(code) ==> text == RankName(code[..|code| - 1]) + " of " + SuitName(code[|code| - 1])
    ensures !IsCardCode(code) ==> text == code
  {
    CardKeys(code);
    if code in CardMap then CardMap[code] else code
  }

  /** Independent reference: a card code is a rank code followed by one suit letter. */
  predicate IsCardCode(code: string) {
    |code| >= 2 && code[..|code| - 1] in Ranks && code[|code| - 1] in Suits
  }

  /** Every card code is in the table and is captioned "<Rank> of <Suit>". */
  lemma CardCaption(rank: string, suit: char)
    requires rank in Ranks && suit in Suits
    ensures rank + [suit] in CardMap
    ensures Caption(rank + [suit]) == RankName(rank) + " of " + SuitName(suit)
  {
    var code := rank + [suit];
    assert code in CardCodes;
    assert code[..|code| - 1] == rank;
  }

  /** The table's keys are exactly the card codes. */
  lemma CardKeys(code: string)
    ensures code in CardMap <==> IsCardCode(code)
  {
    if code in CardMap {
      KeysAreCardCodes(code);
    }
    if IsCardCode(code) {
      CardCodesAreKeys(code);
    }
  }

  /** A code built from a rank and a suit splits back into that rank and suit. */
  lemma CodeShape(code: string)
    requires code in CardCodes
    ensures IsCardCode(code)
  {
    var rank, suit :| rank in Ranks && suit in Suits && code == rank + [suit];
    assert code[..|code| - 1] == rank;
  }

  /** Every key of the table is a card code. */
  lemma KeysAreCardCodes(code: string)
    requires code in CardMap
    ensures IsCardCode(code)
  {
    CodeShape(code);
  }

  /** Every card code is a key of the table. */
  lemma CardCodesAreKeys(code: string)
    requires IsCardCode(code)
    ensures code in CardMap
  {
    var rank, suit := code[..|code| - 1], code[|code| - 1];
    assert code == rank + [suit];
    assert code in CardCodes;
  }

  /** The service's default target "Jd" is captioned "Jack of Diamonds". */
  lemma JackOfDiamonds()
    ensures Caption("Jd") == "Jack of Diamonds"
  {
    CardCaption("J", 'd');
    assert "J" + ['d'] == "Jd";
    assert RankName("J") == "Jack" && SuitName('d') == "Diamonds";
    assert "Jack" + " of " + "Diamonds" == "Jack of Diamonds";
  }

  /** An unknown label such as "joker" is captioned with the label itself. */
  lemma UnknownLabel()
    ensures Caption("joker") == "joker"
  {
    assert !IsCardCode("joker");
  }
}
