/**
 * The Quotes screen: the favourite quotes loaded from storage and the
 * search box that filters them by quote text or author, ignoring case.
 */
module Quotes {
  import opened Wrappers
  import opened Text
  import opened Json
  import opened Seqs
  import opened Storage

  const FavoritesKey := "favorite_quotes"

  /**
   * `loadFavorites`: a stored non-empty text that parses replaces the list
   * (whatever JSON it holds); a missing or empty entry, or one that does not
   * parse (the error is caught), leaves `current` as it is.
   */
  function LoadedFavorites(store: Store, current: Json): (r: Json)
    ensures !HasText(GetItem(store, FavoritesKey)) ==> r == current
    ensures HasText(GetItem(store, FavoritesKey)) ==> r == Parse(store[FavoritesKey]).GetOr(current)
  {
    var saved := GetItem(store, FavoritesKey);
    if HasText(saved) then
      match Parse(saved.value)
      case Some(j) => j
      case None => current
    else current
  }

  /** A list of quotes stored as JSON is loaded back as it was. */
  lemma FavoritesRoundTrip(store: Store, quotes: seq<Json>, current: Json)
    requires WellFormed(JArr(quotes))
    ensures LoadedFavorites(store[FavoritesKey := Stringify(JArr(quotes))], current) == JArr(quotes)
  {
    ParseStringify(JArr(quotes));
    StringifyStart(JArr(quotes));
  }

  /**
   * The filter's test for one quote, with `search` already lower-cased:
   * `quote.quote.toLowerCase().includes(search) || quote.author.toLowerCase().includes(search)`.
   * `None` is the `TypeError` thrown when the field read is not a string
   * (`author` is read only when the quote text does not match).
   */
  function QuoteTest(q: Json, search: string): Option<bool>
  {
    match Get(q, "quote")
    case Some(JStr(text)) =>
      if Includes(ToLower(text), search) then Some(true)
      else (
        match Get(q, "author")
        case Some(JStr(author)) => Some(Includes(ToLower(author), search))
        case _ => None)
    case _ => None
  }

  /** The meaning of a match: the query, lower-cased, occurs in the lower-cased quote text or author. */
  ghost predicate Keeps(q: Json, query: string)
  {
    (exists text :: Get(q, "quote") == Some(JStr(text)) && Includes(ToLower(text), ToLower(query))) ||
    (exists author :: Get(q, "author") == Some(JStr(author)) && Includes(ToLower(author), ToLower(query)))
  }

  /** `Array.prototype.filter` with `QuoteTest`: the first quote whose test throws aborts it. */
  function FilterQuotes(xs: seq<Json>, search: string): Option<seq<Json>>
  {
    if xs == [] then Some([])
    else
      match QuoteTest(xs[0], search)
      case None => None
      case Some(keep) =>
        match FilterQuotes(xs[1..], search)
        case None => None
        case Some(rest) => Some(if keep then [xs[0]] + rest else rest)
  }

  /** `filteredQuotes`; a loaded value that is not an array has no `filter` method and throws. */
  function FilteredQuotes(favorites: Json, query: string): Option<seq<Json>>
  {
    if favorites.JArr? then FilterQuotes(favorites.items, ToLower(query)) else None
  }

  /** The filter throws exactly when some quote's test throws; otherwise it keeps the quotes whose test holds. */
  lemma {:induction false} FilterQuotesSpec(xs: seq<Json>, search: string)
    ensures FilterQuotes(xs, search).None? <==> exists i :: 0 <= i < |xs| && QuoteTest(xs[i], search).None?
    ensures FilterQuotes(xs, search).Some? ==>
              FilterQuotes(xs, search).value == Filter(xs, (q: Json) => QuoteTest(q, search) == Some(true))
  {
    if xs != [] {
      FilterQuotesSpec(xs[1..], search);
      if QuoteTest(xs[0], search).Some? && exists i :: 0 <= i < |xs[1..]| && QuoteTest(xs[1..][i], search).None? {
        var i :| 0 <= i < |xs[1..]| && QuoteTest(xs[1..][i], search).None?;
        assert QuoteTest(xs[i + 1], search).None?;
      }
      if exists i :: 0 <= i < |xs| && QuoteTest(xs[i], search).None? {
        var i :| 0 <= i < |xs| && QuoteTest(xs[i], search).None?;
        if i > 0 {
          assert QuoteTest(xs[1..][i - 1], search).None?;
        }
      }
    }
  }

  /** A test that does not throw says whether the quote matches. */
  lemma QuoteTestMeaning(q: Json, query: string)
    requires QuoteTest(q, ToLower(query)).Some?
    ensures QuoteTest(q, ToLower(query)).value <==> Keeps(q, query)
  {
    var text := Get(q, "quote").value.s;
    if !Includes(ToLower(text), ToLower(query)) {
      var author := Get(q, "author").value.s;
      assert Get(q, "author") == Some(JStr(author));
    }
  }

  /**
   * When the search does not throw, it keeps exactly the favourites that
   * match, in their order.
   */
  lemma SearchSpec(favorites: Json, query: string)
    requires FilteredQuotes(favorites, query).Some?
    ensures favorites.JArr?
    ensures forall q :: q in FilteredQuotes(favorites, query).value <==> q in favorites.items && Keeps(q, query)
    ensures IsSubsequence(FilteredQuotes(favorites, query).value, favorites.items)
  {
    var xs := favorites.items;
    var search := ToLower(query);
    FilterQuotesSpec(xs, search);
    FilterSpec(xs, (q: Json) => QuoteTest(q, search) == Some(true));
    forall q | q in xs
      ensures QuoteTest(q, search) == Some(true) <==> Keeps(q, query)
    {
      var i :| 0 <= i < |xs| && xs[i] == q;
      QuoteTestMeaning(q, query);
    }
  }

  /** The search throws exactly when some favourite lacks a string quote text, or does not match by it and lacks a string author. */
  lemma SearchThrows(favorites: Json, query: string)
    requires favorites.JArr?
    ensures FilteredQuotes(favorites, query).None? <==>
              exists i :: 0 <= i < |favorites.items| && QuoteTest(favorites.items[i], ToLower(query)).None?
  {
    FilterQuotesSpec(favorites.items, ToLower(query));
  }

  /** Every favourite has a string quote text. */
  predicate HasQuoteTexts(xs: seq<Json>)
  {
    forall i :: 0 <= i < |xs| ==> Get(xs[i], "quote").Some? && Get(xs[i], "quote").value.JStr?
  }

  /** An empty query keeps every favourite that has a quote text, and then never throws. */
  lemma EmptyQueryKeepsAll(quotes: seq<Json>)
    requires HasQuoteTexts(quotes)
    ensures FilteredQuotes(JArr(quotes), "") == Some(quotes)
  {
    assert ToLower("") == "";
    forall i | 0 <= i < |quotes|
      ensures QuoteTest(quotes[i], "") == Some(true)
    {
      IncludesEmpty(ToLower(Get(quotes[i], "quote").value.s));
    }
    FilterQuotesSpec(quotes, "");
    FilterAll(quotes, (q: Json) => QuoteTest(q, "") == Some(true));
  }

  /** Queries that differ only in letter case give the same result. */
  lemma SearchIgnoresCase(favorites: Json, q1: string, q2: string)
    requires ToLower(q1) == ToLower(q2)
    ensures FilteredQuotes(favorites, q1) == FilteredQuotes(favorites, q2)
  {
  }

  /**
   * The message shown when the filtered list is empty: `'No quotes found'`
   * for a non-empty query, `'No favorite quotes yet'` otherwise; `None` when
   * there are quotes to show.
   */
  function EmptyMessage(filtered: seq<Json>, query: string): (r: Option<string>)
    ensures r.Some? <==> filtered == []
  {
    if filtered != [] then None
    else if query != "" then Some("No quotes found")
    else Some("No favorite quotes yet")
  }

  /** With an empty query, "no favourite quotes yet" is shown only when there are no favourites. */
  lemma NoFavoritesMessage(quotes: seq<Json>)
    requires FilteredQuotes(JArr(quotes), "").Some?
    ensures EmptyMessage(FilteredQuotes(JArr(quotes), "").value, "") == Some("No favorite quotes yet") <==> quotes == []
  {
    assert ToLower("") == "";
    FilterQuotesSpec(quotes, "");
    if quotes != [] {
      var q := quotes[0];
      assert QuoteTest(q, "").Some?;
      IncludesEmpty(ToLower(Get(q, "quote").value.s));
      FilterSpec(quotes, (x: Json) => QuoteTest(x, "") == Some(true));
      assert q in FilteredQuotes(JArr(quotes), "").value;
    }
  }
}
