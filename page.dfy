/**
 * The page: an optional games container holding the rendered cards, and the
 * operations that fill it, load the catalog into it and filter it.
 */
module Page {
  import opened Wrappers
  import opened Catalog
  import opened Search

  /** The games container element; its children are the cards, in order. */
  class GamesContainer {
    var cards: seq<Card>

    constructor (initial: seq<Card>)
      ensures cards == initial
    {
      cards := initial;
    }
  }

  /** The document, with the games container it holds, if any. */
  class Document {
    const container: GamesContainer?

    constructor (container: GamesContainer?)
      ensures this.container == container
    {
      this.container := container;
    }

    /**
     * `displayGames`: without a container nothing happens; otherwise the
     * container's old cards are dropped and one card per record is appended,
     * in order, so a second call with the same records leaves the same cards.
     */
    method DisplayGames(games: seq<GameRecord>)
      modifies container
      ensures container != null ==> container.cards == Rendered(games)
    {
      if container == null {
        return;
      }
      container.cards := [];
      var i := 0;
      while i < |games|
        invariant 0 <= i <= |games|
        invariant container.cards == Rendered(games[..i])
      {
        var card := CreateGameCard(games[i]);
        assert games[..i + 1] == games[..i] + [games[i]];
        container.cards := container.cards + [card];
        i := i + 1;
      }
      assert games[..i] == games;
    }

    /** `displaySampleGames`: renders the built-in three-record catalog. */
    method DisplaySampleGames()
      modifies container
      ensures container != null ==> container.cards == Rendered(SampleGames())
    {
      DisplayGames(SampleGames());
    }

    /**
     * `loadGames`, given the outcome of fetching and parsing the catalog:
     * the fetched records are rendered, and on failure the samples are.
     */
    method LoadGames(fetched: Option<seq<GameRecord>>)
      modifies container
      ensures container != null ==> container.cards == Rendered(LoadedCatalog(fetched))
    {
      match fetched
      case Some(games) =>
        DisplayGames(games);
      case None =>
        DisplaySampleGames();
    }

    /**
     * `searchGames`: visits the cards in order and sets each one's display
     * to 'block' when it matches the query and to 'none' otherwise.
     */
    method SearchGames(query: string)
      modifies container
      ensures container != null ==> container.cards == Filtered(old(container.cards), query)
    {
      if container == null {
        return;
      }
      var n := |container.cards|;
      var i := 0;
      while i < n
        invariant 0 <= i <= n && |container.cards| == n
        invariant container.cards[..i] == Filtered(old(container.cards), query)[..i]
        invariant forall j :: i <= j < n ==> container.cards[j] == old(container.cards)[j]
      {
        var card := container.cards[i];
        if Contains(Lower(card.title), Lower(query)) || Contains(Lower(card.description), Lower(query)) {
          card := card.(display := Block);
        } else {
          card := card.(display := Hidden);
        }
        container.cards := container.cards[i := card];
        i := i + 1;
      }
    }
  }
}
