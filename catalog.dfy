/**
 * Game records as the catalog delivers them, the card each one renders to,
 * the built-in sample catalog and the detail-page link.
 */
module Catalog {
  import opened Wrappers
  import Decimal

  /** A scalar JSON value standing in an optional record field; Missing is an absent key. */
  datatype Value = Missing | Null | Bool(b: bool) | Num(n: int) | Str(s: string)

  /** JavaScript truthiness of such a value: the falsy ones are absent, null, false, 0 and "". */
  predicate Truthy(v: Value)
    ensures !Truthy(v) <==> v in {Missing, Null, Bool(false), Num(0), Str("")}
  {
    match v
    case Bool(b) => b
    case Num(n) => n != 0
    case Str(s) => s != ""
    case _ => false
  }

  /** The text a template literal `${v}` inserts for v. */
  function Text(v: Value): (t: string)
    ensures v.Str? ==> t == v.s
    ensures v.Num? && v.n >= 0 ==> Decimal.AllDigits(t) && Decimal.ParseDecimal(t) == v.n
    ensures v.Num? && v.n >= 0 ==> |t| >= 1 && (|t| == 1 || t[0] != '0')
    ensures v.Num? && v.n < 0 ==> |t| >= 2 && t[0] == '-' && Decimal.AllDigits(t[1..]) && Decimal.ParseDecimal(t[1..]) == -v.n
    ensures v.Num? && v.n < 0 ==> |t| == 2 || t[1] != '0'
    ensures v.Bool? ==> (t == "true" <==> v.b) && (t == "false" <==> !v.b)
  {
    match v
    case Missing => "undefined"
    case Null => "null"
    case Bool(b) => if b then "true" else "false"
    case Num(n) =>
      if n < 0 then
        Decimal.ParseToDecimal(-n);
        Decimal.ToDecimalShape(-n);
        var t := "-" + Decimal.ToDecimal(-n);
        assert t[1..] == Decimal.ToDecimal(-n);
        t
      else
        Decimal.ParseToDecimal(n);
        Decimal.ToDecimalShape(n);
        Decimal.ToDecimal(n)
    case Str(s) => s
  }

  datatype GameRecord = GameRecord(
    id: string,
    title: string,
    description: string,
    category: string,
    iframeUrl: string,
    price: Value,
    gameplayLength: Value,
    releaseDate: Value,
    rating: Value)

  /** A capability badge. The year badge keeps the date value it is derived from. */
  datatype Badge = PriceBadge(text: string) | LengthBadge(text: string) | YearBadge(date: Value)

  /** A card's `style.display`: never set, 'block' or 'none'. */
  datatype Display = Unset | Block | Hidden

  /**
   * A rendered card: the texts of its heading, description and category,
   * the url of its frame and of its play link, the badge row (absent when
   * there are no badges), the rating label, and its display state.
   */
  datatype Card = Card(
    title: string,
    description: string,
    category: string,
    url: string,
    badgeRow: Option<seq<Badge>>,
    ratingLabel: Option<string>,
    display: Display)

  /** Cards are shown unless their display was set to 'none'. */
  predicate Visible(c: Card) {
    c.display != Hidden
  }

  /** Position of each badge kind in the fixed badge order. */
  function Rank(b: Badge): nat {
    match b
    case PriceBadge(_) => 0
    case LengthBadge(_) => 1
    case YearBadge(_) => 2
  }

  /** The badges of a record: one per truthy badge field, in the fixed order. */
  function BadgesOf(g: GameRecord): (bs: seq<Badge>)
    ensures |bs| == (if Truthy(g.price) then 1 else 0) + (if Truthy(g.gameplayLength) then 1 else 0)
                    + (if Truthy(g.releaseDate) then 1 else 0)
  {
    (if Truthy(g.price) then [PriceBadge(Text(g.price))] else [])
    + (if Truthy(g.gameplayLength) then [LengthBadge(Text(g.gameplayLength))] else [])
    + (if Truthy(g.releaseDate) then [YearBadge(g.releaseDate)] else [])
  }

  /** The card a record renders to. */
  function CardOf(g: GameRecord): (c: Card)
    ensures Visible(c)
    ensures c.badgeRow != Some([])
    ensures c.ratingLabel.Some? ==> |c.ratingLabel.value| > 2 && c.ratingLabel.value[..2] == "★ "
  {
    var badges := BadgesOf(g);
    Card(g.title, g.description, g.category, g.iframeUrl,
         if |badges| > 0 then Some(badges) else None,
         if Truthy(g.rating) then Some("★ " + Text(g.rating)) else None,
         Unset)
  }

  /**
   * Badges come in the order price, gameplay length, release year; each kind
   * appears at most once, and exactly when its field is truthy, carrying that field.
   */
  lemma BadgesSpec(g: GameRecord)
    ensures var bs := BadgesOf(g);
      && (forall i, j :: 0 <= i < j < |bs| ==> Rank(bs[i]) < Rank(bs[j]))
      && (PriceBadge(Text(g.price)) in bs <==> Truthy(g.price))
      && (LengthBadge(Text(g.gameplayLength)) in bs <==> Truthy(g.gameplayLength))
      && (YearBadge(g.releaseDate) in bs <==> Truthy(g.releaseDate))
      && (forall b :: b in bs && b.PriceBadge? ==> b == PriceBadge(Text(g.price)))
      && (forall b :: b in bs && b.LengthBadge? ==> b == LengthBadge(Text(g.gameplayLength)))
      && (forall b :: b in bs && b.YearBadge? ==> b == YearBadge(g.releaseDate))
  {
  }

  /**
   * The card shows the record's texts and link, is not hidden, has a badge
   * row exactly when some badge field is truthy and a rating label, the
   * star and the rating's text, exactly when the rating is truthy.
   */
  lemma CardSpec(g: GameRecord)
    ensures var c := CardOf(g);
      && c.title == g.title && c.description == g.description
      && c.category == g.category && c.url == g.iframeUrl
      && Visible(c)
      && (c.badgeRow.None? <==> !Truthy(g.price) && !Truthy(g.gameplayLength) && !Truthy(g.releaseDate))
      && (c.badgeRow.Some? ==> c.badgeRow.value == BadgesOf(g) && c.badgeRow.value != [])
      && (c.ratingLabel.Some? <==> Truthy(g.rating))
      && (c.ratingLabel.Some? ==> c.ratingLabel.value == "★ " + Text(g.rating))
  {
  }

  /** `createGameCard`: collects the badges one field at a time, then assembles the card. */
  method CreateGameCard(g: GameRecord) returns (card: Card)
    ensures card == CardOf(g)
  {
    var badges: seq<Badge> := [];
    if Truthy(g.price) {
      badges := badges + [PriceBadge(Text(g.price))];
    }
    if Truthy(g.gameplayLength) {
      badges := badges + [LengthBadge(Text(g.gameplayLength))];
    }
    if Truthy(g.releaseDate) {
      badges := badges + [YearBadge(g.releaseDate)];
    }
    assert badges == BadgesOf(g);
    var row := if |badges| > 0 then Some(badges) else None;
    var rating := if Truthy(g.rating) then Some("★ " + Text(g.rating)) else None;
    card := Card(g.title, g.description, g.category, g.iframeUrl, row, rating, Unset);
  }

  /** The cards a catalog renders to: one per record, in catalog order. */
  function Rendered(games: seq<GameRecord>): (cards: seq<Card>)
    ensures |cards| == |games|
    ensures forall i :: 0 <= i < |games| ==> cards[i] == CardOf(games[i])
  {
    seq(|games|, i requires 0 <= i < |games| => CardOf(games[i]))
  }

  /** A record with only the required fields. */
  function Plain(id: string, title: string, description: string, category: string, url: string): GameRecord {
    GameRecord(id, title, description, category, url, Missing, Missing, Missing, Missing)
  }

  /** The fixed catalog shown when loading fails. */
  function SampleGames(): (gs: seq<GameRecord>)
    ensures |gs| == 3
    ensures forall i, j :: 0 <= i < j < |gs| ==> gs[i].id != gs[j].id
    ensures forall g :: g in gs ==>
      !Truthy(g.price) && !Truthy(g.gameplayLength) && !Truthy(g.releaseDate) && !Truthy(g.rating)
  {
    [ Plain("sample-1", "Space Adventure",
            "Embark on an epic journey through the cosmos in this thrilling space exploration game.",
            "Adventure", "https://example.com/game1"),
      Plain("sample-2", "Puzzle Master",
            "Challenge your mind with intricate puzzles and brain-teasing challenges.",
            "Puzzle", "https://example.com/game2"),
      Plain("sample-3", "Racing Champion",
            "Experience high-speed racing action with stunning graphics and realistic physics.",
            "Racing", "https://example.com/game3") ]
  }

  /** Three samples, ids sample-1 to sample-3 in that order, and none of them has a badge or a rating. */
  lemma SampleGamesSpec()
    ensures var gs := SampleGames();
      && |gs| == 3
      && gs[0].id == "sample-1" && gs[1].id == "sample-2" && gs[2].id == "sample-3"
      && forall i :: 0 <= i < 3 ==> CardOf(gs[i]).badgeRow == None && CardOf(gs[i]).ratingLabel == None
  {
  }

  /** The catalog that ends up rendered for a fetch outcome: the fetched one, or the samples on failure. */
  function LoadedCatalog(fetched: Option<seq<GameRecord>>): (gs: seq<GameRecord>)
    ensures fetched.Some? ==> gs == fetched.value
    ensures fetched.None? ==> |gs| == 3 && gs[0].id == "sample-1" && gs[1].id == "sample-2" && gs[2].id == "sample-3"
  {
    match fetched
    case Some(games) => games
    case None => SampleGames()
  }

  const DetailPrefix: string := "/games/"
  const DetailSuffix: string := ".html"

  /** The detail page of a game. */
  function DetailUrl(id: string): (url: string)
    ensures |url| == |DetailPrefix| + |id| + |DetailSuffix|
    ensures url[..|DetailPrefix|] == DetailPrefix
    ensures url[|DetailPrefix|..|url| - |DetailSuffix|] == id
    ensures url[|url| - |DetailSuffix|..] == DetailSuffix
  {
    DetailPrefix + id + DetailSuffix
  }

  /** The id a detail-page path names, if it has the detail shape. */
  function DetailId(url: string): Option<string> {
    if |url| >= |DetailPrefix| + |DetailSuffix|
       && url[..|DetailPrefix|] == DetailPrefix
       && url[|url| - |DetailSuffix|..] == DetailSuffix
    then Some(url[|DetailPrefix|..|url| - |DetailSuffix|])
    else None
  }

  /** Distinct ids give distinct links, and the link names its id. */
  lemma DetailUrlRoundTrip(id: string)
    ensures DetailId(DetailUrl(id)) == Some(id)
  {
  }

  /** Every detail-shaped path is the link of exactly the id it names. */
  lemma DetailIdRoundTrip(url: string)
    requires DetailId(url).Some?
    ensures DetailUrl(DetailId(url).value) == url
  {
  }
}
