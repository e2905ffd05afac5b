/**
 * The two ends composed as they would meet if the client's strings reached the handlers
 * modelled here: the search box's joined keywords taken as the `search` term of `GET /`,
 * and the edit form's tags string read by the tag parser of `POST /upload`. In the code
 * the box's query goes to `/resources/my-resources` and the edit form's to
 * `PUT /resources/:id`, neither of which is defined in the routes file.
 */
module Flows {
  import opened Wrappers
  import opened Text
  import opened ResourceModel
  import opened ResourceRoutes
  import opened MultiSearchBox
  import opened EditForm

  /** With no keywords the box builds "", and the list handler returns every resource. */
  lemma NoKeywordsListsAll(store: seq<StoredResource>)
    ensures ListResources(Some(SearchQuery([])), store, true).Listed?
    ensures multiset(ListResources(Some(SearchQuery([])), store, true).resources) == multiset(store)
  {
    ListWithoutSearch(Some(SearchQuery([])), store);
  }

  /** With one keyword the box builds that keyword, which the list handler matches against the tags. */
  lemma OneKeywordIsTheTerm(keyword: string, store: seq<StoredResource>)
    requires keyword != [] && NoRegexMeta(keyword)
    ensures SearchQuery([keyword]) == keyword
    ensures forall r :: r in ListResources(Some(SearchQuery([keyword])), store, true).resources <==>
      r in store && AnyTagContains(r, keyword)
  {
    ListWithSearch(keyword, store);
  }

  /** The joined keywords contain no regular-expression metacharacter when no keyword does. */
  lemma JoinedQueryHasNoRegexMeta(keywords: seq<string>)
    requires forall i :: 0 <= i < |keywords| ==> NoRegexMeta(keywords[i])
    ensures NoRegexMeta(SearchQuery(keywords))
  {
    var q := SearchQuery(keywords);
    forall i | 0 <= i < |q| ensures q[i] !in RegexMeta {
      assert q[i] in q;
      JoinChars(keywords, ",", q[i]);
      if q[i] !in "," {
        var k :| 0 <= k < |keywords| && q[i] in keywords[k];
        var j :| 0 <= j < |keywords[k]| && keywords[k][j] == q[i];
      }
    }
  }

  /** A tag without a comma never contains, even ignoring case, a term with a comma in it. */
  lemma CommaFreeTagMissesCommaTerm(tag: string, term: string)
    requires ',' !in tag && ',' in term
    ensures !ContainsIgnoreCase(tag, term)
  {
    if ContainsIgnoreCase(tag, term) {
      LowerKeepsChar(term, ',');
      ContainsChar(LowerString(tag), LowerString(term), ',');
      LowerPreservesNonLetter(tag, ',');
    }
  }

  /**
   * The keywords do not combine as the page's "ALL keywords" hint says: with two or more
   * keywords the box builds one term containing a comma, and against a collection whose
   * tags contain no comma (as every tag the tag parser produces) the list handler
   * returns nothing at all.
   */
  lemma SeveralKeywordsMatchNothing(keywords: seq<string>, store: seq<StoredResource>)
    requires |keywords| >= 2
    requires forall i :: 0 <= i < |keywords| ==> NoRegexMeta(keywords[i])
    requires forall r, t :: r in store && t in r.data.tags ==> ',' !in t
    ensures NoRegexMeta(SearchQuery(keywords))
    ensures ListResources(Some(SearchQuery(keywords)), store, true) == Listed([])
  {
    JoinedQueryHasNoRegexMeta(keywords);
    var term := SearchQuery(keywords);
    JoinContainsSeparator(keywords, ',');
    assert term != [];
    forall r | r in store ensures !AnyTagContains(r, term) {
      forall i | 0 <= i < |r.data.tags| ensures !ContainsIgnoreCase(r.data.tags[i], term) {
        assert r.data.tags[i] in r.data.tags;
        CommaFreeTagMissesCommaTerm(r.data.tags[i], term);
      }
    }
    ListWithSearch(term, store);
    var resources := ListResources(Some(term), store, true).resources;
    assert forall r :: r !in resources;
  }

  /**
   * Round trip through the edit form: a resource's tags, joined with ", " into the form's
   * tags field, parse back to the same tags when they are trimmed and comma-free (and not
   * the single empty tag) — in particular whenever they came from the tag parser itself.
   */
  lemma EditedTagsParseBack(r: StoredResource)
    requires forall i :: 0 <= i < |r.data.tags| ==> IsTrimmed(r.data.tags[i]) && ',' !in r.data.tags[i]
    requires r.data.tags != [""]
    ensures ParseTags(Some(InitialFields(r).tags)) == r.data.tags
  {
    ParseTagsOfJoined(r.data.tags);
  }
}
