# Game catalog page: verified model of its logic

This project models the data logic of a static game-catalog web page
(`assets/js/main.js`) and proves properties of it in Dafny:

- **Countdown** (`Countdown`, `Decimal`): each tick takes the distance in whole
  milliseconds from the wall-clock instant `now` to the release instant
  2025-09-25T00:00:00Z. A negative distance pins all four slots at `"00"`.
  Otherwise the distance is split by floor division and remainder into days,
  hours, minutes and seconds, and each is printed with `toString()` and
  `padStart(2, '0')`. The four slots are a class with four text fields, one per
  display element.
- **Catalog rendering** (`Catalog`, `Page`): a game record becomes a card with
  its title, description, category and url, a badge row (price, gameplay
  length, release year, each present only when its field is truthy, and no row
  at all when there are none), and a rating label when the rating is truthy.
  The document's games container (possibly missing) holds the cards as a
  sequence field. `DisplayGames` clears it and appends one card per record.
  `LoadGames` renders the fetched catalog, or the three built-in samples when
  fetching or parsing failed.
- **Search** (`Search`, `Page`): `SearchGames` walks the cards and sets each
  card's display to shown or hidden. A card is shown exactly when the lowered
  query occurs in its lowered title or lowered description.
- **Detail link** (`Catalog.DetailUrl`): `"/games/" + id + ".html"`.

The wall-clock instant and the outcome of the catalog fetch are parameters:
`UpdateCountdown(now)` and `LoadGames(fetched: Option<seq<GameRecord>>)`.

Optional record fields hold a scalar JSON `Value`: absent, `null`, a boolean,
an integer or a string. JavaScript truthiness and template-literal text are
modelled on it explicitly.

Two facts about the code shape the model:
- The rating is a separate label beside the category, not a badge
  (assets/js/main.js:124). It does not count toward the badge row.
- The countdown writes its four slots without checking that they exist
  (assets/js/main.js:44-47, 56-59). The model takes them as present (see Left out).

## Model

| member | source | states |
|---|---|---|
| `Countdown.Split` | assets/js/main.js:51-54 | for a non-negative distance, hours < 24, minutes < 60, seconds < 60, and days·86400000 + hours·3600000 + minutes·60000 + seconds·1000 ≤ distance < that + 1000 |
| `Countdown.SplitUnique` | assets/js/main.js:51-54 | any decomposition meeting those bounds and that reconstruction equals the split, so the split is the only correct one |
| `Countdown.SplitExample` | assets/js/main.js:51-54 | distance 90061000 splits into 1 day, 1 hour, 1 minute, 1 second |
| `Countdown.Pad2` | assets/js/main.js:56-59 | `n.toString().padStart(2, '0')` is at least two characters and starts with '0' exactly when n is below 10; its exact shape and its read-back as n are proved in Pad2Shape |
| `Countdown.SlotsFor` | assets/js/main.js:40-59 | the texts one tick writes: "00" in every slot when the distance is negative (the released branch) and also at distance 0 (the normal branch, by ZeroDistance); the digits and lengths of the slots before release are proved in SlotsReadBack |
| `Countdown.ZeroDistance` | assets/js/main.js:51-59 | at distance 0 the normal branch splits into all zeros and writes "00" in every slot |
| `Countdown.Pad2Shape` | assets/js/main.js:56-59 | a value below 10 gets exactly one leading '0'; 10 and above print unchanged; length is max(2, digits(n)); the text reads back as n, so nothing is truncated |
| `Countdown.ReleasedPinned` | assets/js/main.js:40-48 | at or after the release instant (distance ≤ 0, covering both the released branch and distance 0) all four slots are "00", on every later tick too |
| `Countdown.SlotsReadBack` | assets/js/main.js:51-59 | before release each slot's digits read back as its component of the split; hours, minutes and seconds are two characters, days at least two |
| `Countdown.SlotsExample` | assets/js/main.js:40-59 | 90061000 ms before release the slots read "01", "01", "01", "01" |
| `Countdown.CountdownDisplay.constructor` | assets/js/main.js:44-47 | the four slots start with the page's own texts |
| `Countdown.CountdownDisplay.UpdateCountdown` | assets/js/main.js:38-60 | one tick at instant now leaves the slots holding exactly the texts for distance ReleaseDate − now |
| `Decimal.ToDecimal` | assets/js/main.js:56-59 | `toString()` of a whole non-negative number is a non-empty string of digits |
| `Decimal.ParseToDecimal` | assets/js/main.js:56-59 | reading the printed digits back gives the number printed |
| `Decimal.ToDecimalShape` | assets/js/main.js:56-59 | the printed form has as many characters as n has digits, is one character exactly for n < 10, and has no leading zero |
| `Decimal.ToDecimalParse` | assets/js/main.js:56-59 | printing the value of a digit string without a leading zero gives that string back |
| `Decimal.PadStart` | assets/js/main.js:56-59 | `padStart(target, fill)` keeps s as its suffix, is max(|s|, target) long and is fill before s |
| `Decimal.ParseLeadingZeros` | assets/js/main.js:56-59 | leading '0' characters do not change the value a digit string denotes |
| `Catalog.Text` | assets/js/main.js:102-104 | a string is inserted as itself; an integer as its decimal digits, with '-' before them when negative; a boolean as "true" exactly when it is true |
| `Catalog.Truthy` | assets/js/main.js:102-104 | the falsy field values are exactly absent, `null`, `false`, `0` and `""`; every other value is truthy, as in the `if (game.price)` tests and the rating test at line 124 |
| `Catalog.BadgesOf` | assets/js/main.js:101-104 | one badge per truthy field among price, gameplay length and release date, so as many badges as there are truthy badge fields |
| `Catalog.CardOf` | assets/js/main.js:106-131 | the card a record renders to is never hidden, never carries an empty badge wrapper, and its rating label, when present, starts with "★ " |
| `Catalog.BadgesSpec` | assets/js/main.js:101-104 | badges come in the order price, gameplay length, release year; each kind appears at most once, exactly when its field is truthy, and carries that field |
| `Catalog.CardSpec` | assets/js/main.js:106-131 | the card carries the record's title, description, category and url; it is not hidden; the badge row is absent exactly when no badge field is truthy; the rating label is present exactly when the rating is truthy, and then reads "★ " followed by the rating's text |
| `Catalog.CreateGameCard` | assets/js/main.js:96-134 | the badges pushed one field at a time and the assembled card equal the card the record renders to |
| `Catalog.Rendered` | assets/js/main.js:89-92 | a catalog renders to exactly one card per record, card i built from record i |
| `Catalog.SampleGames` | assets/js/main.js:144-166 | the fallback catalog has three records with pairwise distinct ids, none with a truthy price, gameplay length, release date or rating |
| `Catalog.LoadedCatalog` | assets/js/main.js:70-80 | the catalog rendered for a fetch outcome: the fetched records on success, the samples sample-1, sample-2, sample-3 in that order on failure |
| `Catalog.SampleGamesSpec` | assets/js/main.js:144-166 | the fallback catalog is exactly three records with ids sample-1, sample-2, sample-3 in that order, none with badges or rating |
| `Catalog.DetailUrl` | assets/js/main.js:139 | the link is "/games/", then the id, then ".html" |
| `Catalog.DetailUrlRoundTrip` | assets/js/main.js:139 | the id can be recovered from its link, so distinct ids give distinct links |
| `Catalog.DetailIdRoundTrip` | assets/js/main.js:139 | every path of the detail shape is the link of the id it names |
| `Search.Lower` | assets/js/main.js:174-178 | lowering keeps the length, leaves no ASCII capital, and changes only capitals, each to its small letter |
| `Search.LowerIdempotent` | assets/js/main.js:174-178 | lowering a lowered string changes nothing |
| `Search.LowerSlice` | assets/js/main.js:174-180 | lowering a slice equals slicing the lowered string |
| `Search.Contains` | assets/js/main.js:180 | `s.includes(sub)`: sub occurs at some position of s; never when sub is longer than s, always when sub is empty or is s itself |
| `Search.Matches` | assets/js/main.js:177-180 | the per-card test: the lowered query occurs in the lowered title or the lowered description; true for the empty query and whenever title or description includes the query as typed |
| `Search.ContainsEmpty` | assets/js/main.js:180 | every string includes the empty string |
| `Search.ContainsLowered` | assets/js/main.js:174-180 | an occurrence of sub in s remains an occurrence after both are lowered |
| `Search.Filtered` | assets/js/main.js:176-185 | the same number of cards in the same order, contents unchanged, each visible exactly when the lowered query occurs in its lowered title or description |
| `Search.EmptyQueryShowsAll` | assets/js/main.js:173-185 | an empty query shows every card |
| `Search.VerbatimMatchShown` | assets/js/main.js:174-180 | a card whose title or description includes the query as typed is shown |
| `Search.FilterIgnoresPriorDisplay` | assets/js/main.js:176-185 | the outcome depends only on the cards' contents, not on which were shown before |
| `Search.FilterIdempotent` | assets/js/main.js:176-185 | repeating a query changes nothing |
| `Search.FilterCaseInsensitive` | assets/js/main.js:174 | queries with the same lowering filter identically |
| `Search.FilterLoweredQuery` | assets/js/main.js:174 | searching for the lowered query is the same as searching for the query |
| `Page.GamesContainer.constructor` | assets/js/main.js:84 | the container starts with the cards the page's markup gives it |
| `Page.Document.constructor` | assets/js/main.js:84 | the document holds the given games container, or none |
| `Page.Document.DisplayGames` | assets/js/main.js:83-93 | with no container nothing changes; otherwise the container holds exactly the rendered cards of the records, whatever it held before, so a repeated call is idempotent and an empty catalog leaves it empty |
| `Page.Document.DisplaySampleGames` | assets/js/main.js:143-169 | the container holds exactly the rendered sample catalog |
| `Page.Document.LoadGames` | assets/js/main.js:70-80 | on a successful fetch the fetched records are rendered; on failure exactly the three samples are |
| `Page.Document.SearchGames` | assets/js/main.js:172-186 | with no container nothing changes; otherwise the cards become the filtered cards of the old ones |

## Left out

- Event-listener registration, the mobile menu toggle, smooth scrolling and the creation of the search input (assets/js/main.js:2-32, 189-214): user-interface wiring without data logic.
- `setInterval` and reading the clock (assets/js/main.js:39, 63-66): timer and I/O; the instant is the `now` parameter of each tick.
- `fetch`, `response.json()` and the `console.error` log entry (assets/js/main.js:72-76): network, parsing and logging I/O; only the outcome is modelled, as `Option<seq<GameRecord>>`.
- A JSON body that is not an array, or holds `null` entries: when the container exists, `displayGames` reaches its loop and throws inside the `try`, and the samples are then rendered; when it is missing, `displayGames` returns at assets/js/main.js:85 before the loop and nothing is rendered. The model counts such outcomes as `None`; in both cases the end state is the same as for `None`.
- `new Date(releaseDate).getFullYear()` (assets/js/main.js:104): date parsing by a foreign library; the year badge keeps the date value it is derived from.
- HTML markup, CSS classes and the iframe attributes (assets/js/main.js:98, 108-131): presentation only. The card records the texts and the url that the markup shows.
- Record fields are inserted into markup without escaping. The model takes a card's heading and description text to be the record's title and description. A title containing markup would give a different `textContent`, which the search reads.
- `window.location.href` navigation (assets/js/main.js:139): only the URL string is modelled.
- Search.Lower: lowers ASCII capitals only; the Unicode case mapping of `toLowerCase` is not modelled.
- Catalog.Text: covers absent, `null`, booleans, integers and strings. Fractional numbers, `NaN`, the exponent notation JavaScript uses from 1e21 on, and object or array values are not modelled.
- The required record fields are strings. A record missing one would show the text "undefined"; that is not modelled.
- Page.Document.SearchGames: a child `div` of the container without an `h3` or a `p` makes `searchGames` throw at assets/js/main.js:177-178, for instance placeholder markup still there before the catalog is rendered, and the cards after that child keep their display. The `Card` type cannot represent such a child, so the model does not capture that throw.
- Countdown.CountdownDisplay.UpdateCountdown: the four slot elements are taken to exist. The source looks them up without a check, and a missing one would throw.
