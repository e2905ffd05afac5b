/**
 * The multi-keyword search box (frontend/src/components/MultiSearch.jsx): an input field
 * and a list of keywords that is kept trimmed, non-empty and duplicate-free by
 * `addKeyword`, `removeKeyword` and "Clear all"; the keywords are sent to the server
 * joined with "," as a single search string.
 */
module MultiSearchBox {
  import opened Text
  import opened Seqs

  /**
   * The keyword list's invariant, as `addKeyword` builds the list: each keyword, when it was
   * appended, was non-empty, trimmed and not yet listed (`KeywordsValidIff` states it outright).
   */
  ghost predicate KeywordsValid(keywords: seq<string>)
    decreases |keywords|
  {
    keywords == [] ||
    var init, last := keywords[..|keywords| - 1], keywords[|keywords| - 1];
    KeywordsValid(init) && last != [] && IsTrimmed(last) && last !in init
  }

  /** Every keyword non-empty and trimmed, and no keyword twice. */
  ghost predicate AllKeywordsValid(keywords: seq<string>) {
    && (forall i :: 0 <= i < |keywords| ==> keywords[i] != [] && IsTrimmed(keywords[i]))
    && Distinct(keywords)
  }

  /** The invariant holds exactly when every keyword is non-empty and trimmed and none occurs twice. */
  lemma {:induction false} KeywordsValidIff(keywords: seq<string>)
    ensures KeywordsValid(keywords) <==> AllKeywordsValid(keywords)
    decreases |keywords|
  {
    if keywords != [] {
      var n := |keywords| - 1;
      var init, last := keywords[..n], keywords[n];
      KeywordsValidIff(init);
      assert forall i :: 0 <= i < n ==> keywords[i] == init[i];
      if KeywordsValid(keywords) {
        forall i, j | 0 <= i < j <= n ensures keywords[i] != keywords[j] {
          if j == n {
            assert keywords[i] in init;
          }
        }
      }
      if AllKeywordsValid(keywords) {
        forall i | 0 <= i < n ensures init[i] != last {
          assert keywords[i] != keywords[n];
        }
      }
    }
  }

  /** `addKeyword` takes the keyword: its trimmed form is non-empty and not yet in the list. */
  predicate Accepts(keywords: seq<string>, keyword: string) {
    var trimmed := Trim(keyword);
    trimmed != [] && trimmed !in keywords
  }

  /** The list after `addKeyword(keyword)`: the trimmed keyword appended if accepted, the same list otherwise. */
  function WithKeyword(keywords: seq<string>, keyword: string): seq<string> {
    if Accepts(keywords, keyword) then keywords + [Trim(keyword)] else keywords
  }

  /** The list after `removeKeyword(k)`: `filter(keyword => keyword !== k)`. */
  function WithoutKeyword(keywords: seq<string>, k: string): seq<string> {
    Filter(keywords, (x: string) => x != k)
  }

  /** The string handed to `onSearch`: `searchKeywords.join(',')`. */
  function SearchQuery(keywords: seq<string>): string {
    Join(keywords, ",")
  }

  /** A blank or white-space-only keyword is never added. */
  lemma BlankKeywordIgnored(keywords: seq<string>, keyword: string)
    requires IsBlank(keyword)
    ensures !Accepts(keywords, keyword) && WithKeyword(keywords, keyword) == keywords
  {
    BlankIffTrimEmpty(keyword);
  }

  /** A keyword whose trimmed form is new is appended, trimmed, at the end. */
  lemma NewKeywordAppended(keywords: seq<string>, keyword: string)
    requires !IsBlank(keyword) && Trim(keyword) !in keywords
    ensures WithKeyword(keywords, keyword) == keywords + [Trim(keyword)]
    ensures |WithKeyword(keywords, keyword)| == |keywords| + 1
  {
    BlankIffTrimEmpty(keyword);
  }

  /** A keyword whose trimmed form is already listed changes nothing. */
  lemma DuplicateKeywordIgnored(keywords: seq<string>, keyword: string)
    requires Trim(keyword) in keywords
    ensures !Accepts(keywords, keyword) && WithKeyword(keywords, keyword) == keywords
  {
  }

  /** Adding keeps the list trimmed, non-empty and duplicate-free. */
  lemma WithKeywordKeepsValid(keywords: seq<string>, keyword: string)
    requires KeywordsValid(keywords)
    ensures KeywordsValid(WithKeyword(keywords, keyword))
  {
    if Accepts(keywords, keyword) {
      var r := keywords + [Trim(keyword)];
      assert r[..|r| - 1] == keywords;
    }
  }

  /** Removing keeps the list trimmed, non-empty and duplicate-free. */
  lemma WithoutKeywordKeepsValid(keywords: seq<string>, k: string)
    requires KeywordsValid(keywords)
    ensures KeywordsValid(WithoutKeyword(keywords, k))
  {
    var keep := (x: string) => x != k;
    var r := WithoutKeyword(keywords, k);
    KeywordsValidIff(keywords);
    FilterKeepsDistinct(keywords, keep);
    forall i | 0 <= i < |r| ensures r[i] != [] && IsTrimmed(r[i]) {
      assert r[i] in r;
      var j :| 0 <= j < |keywords| && keywords[j] == r[i];
    }
    KeywordsValidIff(r);
  }

  /**
   * Removing deletes every occurrence of the keyword and nothing else, keeping the order of
   * the rest; removing a keyword that is not listed changes nothing.
   */
  lemma WithoutKeywordSpec(keywords: seq<string>, k: string)
    ensures k !in WithoutKeyword(keywords, k)
    ensures forall x :: x in WithoutKeyword(keywords, k) <==> x in keywords && x != k
    ensures forall x :: x != k ==> multiset(WithoutKeyword(keywords, k))[x] == multiset(keywords)[x]
    ensures IsSubsequence(WithoutKeyword(keywords, k), keywords)
    ensures k !in keywords ==> WithoutKeyword(keywords, k) == keywords
  {
    var keep := (x: string) => x != k;
    forall x | x != k ensures multiset(WithoutKeyword(keywords, k))[x] == multiset(keywords)[x] {
      FilterMultiset(keywords, keep, x);
    }
    FilterIsSubsequence(keywords, keep);
    if k !in keywords {
      FilterAllKept(keywords, keep);
    }
  }

  /** Splitting the emitted query on "," recovers the keywords, when there is one or more and none contains a comma. */
  lemma SearchQueryRoundTrip(keywords: seq<string>)
    requires |keywords| > 0
    requires forall i :: 0 <= i < |keywords| ==> ',' !in keywords[i]
    ensures Split(SearchQuery(keywords), ',') == keywords
  {
    SplitJoin(keywords, ',');
  }

  /** The component's state; the debounce timer and rendering are not modelled. */
  class MultiSearch {
    var inputValue: string
    var searchKeywords: seq<string>

    ghost predicate Valid()
      reads this
    {
      KeywordsValid(searchKeywords)
    }

    /** `useState("")` and `useState([])`. */
    constructor ()
      ensures Valid() && inputValue == [] && searchKeywords == []
    {
      inputValue := [];
      searchKeywords := [];
    }

    /** The input's `onChange`. */
    method SetInput(value: string)
      modifies this
      ensures inputValue == value && searchKeywords == old(searchKeywords)
    {
      inputValue := value;
    }

    /** `addKeyword(keyword)`: appends the trimmed keyword and clears the input when it is taken; otherwise no change. */
    method AddKeyword(keyword: string)
      requires Valid()
      modifies this
      ensures searchKeywords == WithKeyword(old(searchKeywords), keyword)
      ensures inputValue == if Accepts(old(searchKeywords), keyword) then [] else old(inputValue)
      ensures Valid()
    {
      var trimmed := Trim(keyword);
      if trimmed != [] && trimmed !in searchKeywords {
        searchKeywords := searchKeywords + [trimmed];
        inputValue := [];
      }
      WithKeywordKeepsValid(old(searchKeywords), keyword);
    }

    /** `removeKeyword(k)`, from a keyword chip's remove button. */
    method RemoveKeyword(k: string)
      requires Valid()
      modifies this
      ensures Valid()
      ensures searchKeywords == WithoutKeyword(old(searchKeywords), k)
      ensures inputValue == old(inputValue)
    {
      WithoutKeywordKeepsValid(searchKeywords, k);
      searchKeywords := WithoutKeyword(searchKeywords, k);
    }

    /** "Clear all": `setSearchKeywords([])`. */
    method ClearAll()
      requires Valid()
      modifies this
      ensures Valid()
      ensures searchKeywords == [] && inputValue == old(inputValue)
    {
      searchKeywords := [];
    }

    /** `handleSubmit`: adds the input as a keyword only when it is not blank. */
    method Submit()
      requires Valid()
      modifies this
      ensures Valid()
      ensures IsBlank(old(inputValue)) ==> searchKeywords == old(searchKeywords) && inputValue == old(inputValue)
      ensures !IsBlank(old(inputValue)) ==>
        && searchKeywords == WithKeyword(old(searchKeywords), old(inputValue))
        && inputValue == if Accepts(old(searchKeywords), old(inputValue)) then [] else old(inputValue)
    {
      if !IsBlank(inputValue) {
        AddKeyword(inputValue);
      }
    }

    /** `handleKeyPress`: Enter behaves like submit; any other key changes nothing. */
    method KeyPress(key: string)
      requires Valid()
      modifies this
      ensures Valid()
      ensures key != "Enter" || IsBlank(old(inputValue)) ==>
        searchKeywords == old(searchKeywords) && inputValue == old(inputValue)
      ensures key == "Enter" && !IsBlank(old(inputValue)) ==>
        && searchKeywords == WithKeyword(old(searchKeywords), old(inputValue))
        && inputValue == if Accepts(old(searchKeywords), old(inputValue)) then [] else old(inputValue)
    {
      if key == "Enter" {
        if !IsBlank(inputValue) {
          AddKeyword(inputValue);
        }
      }
    }

    /** The search string the debounced effect passes to `onSearch`. */
    function Query(): string
      reads this
    {
      SearchQuery(searchKeywords)
    }
  }
}
