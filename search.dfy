/**
 * The search filter: a card stays visible exactly when the lowered query
 * occurs in its lowered title or description.
 */
module Search {
  import opened Catalog

  /** ASCII lowering of one character; every other character is kept. */
  function LowerChar(c: char): char {
    if 'A' <= c <= 'Z' then (c as int + 32) as char else c
  }

  function Lower(s: string): (r: string)
    ensures |r| == |s|
    ensures forall i :: 0 <= i < |r| ==> !('A' <= r[i] <= 'Z')
    ensures forall i :: 0 <= i < |r| ==> r[i] == s[i] || ('A' <= s[i] <= 'Z' && r[i] as int == s[i] as int + 32)
  {
    seq(|s|, i requires 0 <= i < |s| => LowerChar(s[i]))
  }

  /** Lowering twice is lowering once. */
  lemma LowerIdempotent(s: string)
    ensures Lower(Lower(s)) == Lower(s)
  {
  }

  /** Lowering commutes with taking a slice. */
  lemma LowerSlice(s: string, lo: nat, hi: nat)
    requires lo <= hi <= |s|
    ensures Lower(s)[lo..hi] == Lower(s[lo..hi])
  {
  }

  /** sub occurs in s starting at position k. */
  predicate OccursAt(s: string, sub: string, k: nat) {
    k + |sub| <= |s| && s[k..k + |sub|] == sub
  }

  /** `s.includes(sub)`: sub occurs in s at some position. */
  predicate Contains(s: string, sub: string)
    ensures |sub| > |s| ==> !Contains(s, sub)
    ensures sub == "" ==> Contains(s, sub)
    ensures sub == s ==> Contains(s, sub)
  {
    assert OccursAt(s, "", 0) && OccursAt(s, s, 0);
    exists k: nat :: k <= |s| - |sub| && OccursAt(s, sub, k)
  }

  /** Every string includes the empty string. */
  lemma ContainsEmpty(s: string)
    ensures Contains(s, "")
  {
    assert OccursAt(s, "", 0);
  }

  /** An occurrence survives lowering both sides. */
  lemma ContainsLowered(s: string, sub: string)
    requires Contains(s, sub)
    ensures Contains(Lower(s), Lower(sub))
  {
    var k: nat :| k <= |s| - |sub| && OccursAt(s, sub, k);
    LowerSlice(s, k, k + |sub|);
    assert OccursAt(Lower(s), Lower(sub), k);
  }

  /** The test the filter applies to one card. */
  predicate Matches(c: Card, query: string)
    ensures query == "" ==> Matches(c, query)
    ensures Contains(c.title, query) || Contains(c.description, query) ==> Matches(c, query)
  {
    var q := Lower(query);
    assert Lower("") == "";
    assert Contains(c.title, query) ==> Contains(Lower(c.title), q) by {
      if Contains(c.title, query) { ContainsLowered(c.title, query); }
    }
    assert Contains(c.description, query) ==> Contains(Lower(c.description), q) by {
      if Contains(c.description, query) { ContainsLowered(c.description, query); }
    }
    Contains(Lower(c.title), q) || Contains(Lower(c.description), q)
  }

  /** The cards after filtering: which are shown, with nothing else about them changed. */
  function Filtered(cards: seq<Card>, query: string): (r: seq<Card>)
    ensures |r| == |cards|
    ensures forall i :: 0 <= i < |r| ==> (Visible(r[i]) <==> Matches(cards[i], query))
    ensures forall i :: 0 <= i < |r| ==> r[i].(display := Unset) == cards[i].(display := Unset)
  {
    seq(|cards|, i requires 0 <= i < |cards| =>
      cards[i].(display := if Matches(cards[i], query) then Block else Hidden))
  }

  /** An empty query shows every card. */
  lemma EmptyQueryShowsAll(cards: seq<Card>)
    ensures forall i :: 0 <= i < |cards| ==> Visible(Filtered(cards, "")[i])
  {
    forall i | 0 <= i < |cards|
      ensures Matches(cards[i], "")
    {
      assert Lower("") == "";
      ContainsEmpty(Lower(cards[i].title));
    }
  }

  /** A card whose title or description includes the query verbatim stays visible, whatever the case. */
  lemma VerbatimMatchShown(c: Card, query: string)
    requires Contains(c.title, query) || Contains(c.description, query)
    ensures Matches(c, query)
  {
    if Contains(c.title, query) {
      ContainsLowered(c.title, query);
    } else {
      ContainsLowered(c.description, query);
    }
  }

  /** The result ignores how the cards were shown before: only their content counts. */
  lemma FilterIgnoresPriorDisplay(a: seq<Card>, b: seq<Card>, query: string)
    requires |a| == |b|
    requires forall i :: 0 <= i < |a| ==> a[i].(display := Unset) == b[i].(display := Unset)
    ensures Filtered(a, query) == Filtered(b, query)
  {
  }

  /** Searching again for the same query changes nothing. */
  lemma FilterIdempotent(cards: seq<Card>, query: string)
    ensures Filtered(Filtered(cards, query), query) == Filtered(cards, query)
  {
  }

  /** Only the lowered query matters: queries that differ in ASCII case filter alike. */
  lemma FilterCaseInsensitive(cards: seq<Card>, q1: string, q2: string)
    requires Lower(q1) == Lower(q2)
    ensures Filtered(cards, q1) == Filtered(cards, q2)
  {
  }

  /** Searching for the lowered query is searching for the query. */
  lemma FilterLoweredQuery(cards: seq<Card>, query: string)
    ensures Filtered(cards, Lower(query)) == Filtered(cards, query)
  {
    LowerIdempotent(query);
    FilterCaseInsensitive(cards, Lower(query), query);
  }
}
