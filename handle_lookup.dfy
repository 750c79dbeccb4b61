/**
 * Handle resolution (`getChannelIdFromHandle`) and the complete `extractChannelId`, in the two
 * versions the code base holds: server.js ranks the results of up to three channel searches,
 * lib/youtube.js takes the first result of the "@handle" search only. The channel search is a
 * parameter: the response each query gets.
 */
module HandleLookup {
  import opened Wrappers
  import opened Strings
  import opened ChannelUrl

  /** One channel search result: `snippet.channelId`, `snippet.title`, `snippet.customUrl`. */
  datatype ChannelItem = ChannelItem(channelId: string, title: string, customUrl: Option<string>)

  /** One `search.list` call: the items it returned, or the exception it threw. */
  datatype SearchResponse = Items(items: seq<ChannelItem>) | SearchFailed

  type Search = string -> SearchResponse

  // ---- words, as `split(/[\s-]+/)` cuts them ----

  predicate IsWordSeparator(c: char) {
    IsJsSpace(c) || c == '-'
  }

  function SeparatorRunEnd(s: string, i: nat): (j: nat)
    requires i <= |s|
    ensures i <= j <= |s|
    ensures j == |s| || !IsWordSeparator(s[j])
    decreases |s| - i
  {
    if i < |s| && IsWordSeparator(s[i]) then SeparatorRunEnd(s, i + 1) else i
  }

  /** The pieces between maximal separator runs, empty ones at either end included. */
  function SplitWordsFrom(s: string, start: nat, i: nat): (r: seq<string>)
    requires start <= i <= |s|
    ensures |r| >= 1
    decreases |s| - i
  {
    if i == |s| then [s[start..]]
    else if IsWordSeparator(s[i]) then
      var j := SeparatorRunEnd(s, i + 1);
      [s[start..i]] + SplitWordsFrom(s, j, j)
    else SplitWordsFrom(s, start, i + 1)
  }

  function SplitWords(s: string): seq<string> {
    SplitWordsFrom(s, 0, 0)
  }

  /** A text without separators is one word. */
  lemma {:induction false} NoSeparatorOneWord(s: string, start: nat, i: nat)
    requires start <= i <= |s|
    requires forall k :: i <= k < |s| ==> !IsWordSeparator(s[k])
    ensures SplitWordsFrom(s, start, i) == [s[start..]]
    decreases |s| - i
  {
    if i < |s| {
      NoSeparatorOneWord(s, start, i + 1);
    }
  }

  // ---- server.js: the match policy ----

  /** The three ranked rules; an item satisfying none of them ranks last. */
  datatype Rule = ExactHandle | TitlePrefix | AllWords

  /**
   * `customUrl` equals "@" + lower(handle) or lower(handle) (a missing one reads as "");
   * the lower-cased title starts with lower(handle), or with it once its first '-' became a
   * space; every word of the handle is a word of the title, the handle having several words.
   */
  predicate Satisfies(rule: Rule, handle: string, item: ChannelItem) {
    var h := Lower(handle);
    match rule
    case ExactHandle =>
      var declared := item.customUrl.GetOr("");
      declared == "@" + h || declared == h
    case TitlePrefix =>
      var title := Lower(item.title);
      StartsWith(title, h) || StartsWith(title, ReplaceFirst(h, '-', " "))
    case AllWords =>
      var handleWords := SplitWords(h);
      var titleWords := SplitWords(Lower(item.title));
      (forall w :: w in handleWords ==> w in titleWords) && |handleWords| > 1
  }

  /** One `for (const item of items)` pass: the first item satisfying `rule`. */
  function FirstSatisfying(rule: Rule, handle: string, items: seq<ChannelItem>, from: nat): (r: Option<nat>)
    ensures r.Some? ==> from <= r.value < |items| && Satisfies(rule, handle, items[r.value])
    ensures r.Some? ==> forall j :: from <= j < r.value ==> !Satisfies(rule, handle, items[j])
    ensures r.None? ==> forall j :: from <= j < |items| ==> !Satisfies(rule, handle, items[j])
    decreases |items| - from
  {
    if from >= |items| then None
    else if Satisfies(rule, handle, items[from]) then Some(from)
    else FirstSatisfying(rule, handle, items, from + 1)
  }

  /** The first rule an item satisfies, as a number (0 is best); 3 when it satisfies none. */
  function Rank(handle: string, item: ChannelItem): nat {
    if Satisfies(ExactHandle, handle, item) then 0
    else if Satisfies(TitlePrefix, handle, item) then 1
    else if Satisfies(AllWords, handle, item) then 2
    else 3
  }

  /**
   * The three passes over a non-empty result list, then the first result. Whatever the passes,
   * the chosen item is the best-ranked one, the earliest among equally ranked ones.
   */
  function SelectIndex(handle: string, items: seq<ChannelItem>): (i: nat)
    requires |items| > 0
    ensures i < |items|
    ensures forall j :: 0 <= j < |items| ==>
              Rank(handle, items[i]) < Rank(handle, items[j])
              || (Rank(handle, items[i]) == Rank(handle, items[j]) && i <= j)
  {
    match FirstSatisfying(ExactHandle, handle, items, 0)
    case Some(i) => i
    case None =>
      match FirstSatisfying(TitlePrefix, handle, items, 0)
      case Some(i) => i
      case None =>
        match FirstSatisfying(AllWords, handle, items, 0)
        case Some(i) => i
        case None => 0
  }

  function SelectChannel(handle: string, items: seq<ChannelItem>): string
    requires |items| > 0
  {
    items[SelectIndex(handle, items)].channelId
  }

  function ServerQueries(handle: string): seq<string> {
    ["@" + handle, handle, handle + " channel"]
  }

  /** Query `k` is the first to get a non-empty answer, every earlier one having got an empty one. */
  predicate DecidedBy(queries: seq<string>, search: Search, k: int) {
    && 0 <= k < |queries|
    && search(queries[k]).Items? && |search(queries[k]).items| > 0
    && forall j :: 0 <= j < k ==> search(queries[j]) == Items([])
  }

  lemma DecidedByLater(queries: seq<string>, search: Search, k: int)
    requires queries != [] && search(queries[0]) == Items([]) && k >= 1
    ensures DecidedBy(queries, search, k) <==> DecidedBy(queries[1..], search, k - 1)
  {
    if k < |queries| {
      assert queries[1..][k - 1] == queries[k];
      forall j | 1 <= j < k ensures queries[1..][j - 1] == queries[j] { }
    }
  }

  /**
   * The query loop: a failing search ends the lookup with null (the `catch`), an empty answer
   * moves to the next query, the first non-empty answer decides through the match policy.
   */
  function ServerLookupFrom(handle: string, queries: seq<string>, search: Search): (r: Option<string>)
    ensures r.None? <==> forall k :: !DecidedBy(queries, search, k)
    ensures r.Some? ==> exists k :: DecidedBy(queries, search, k)
                                   && r.value == SelectChannel(handle, search(queries[k]).items)
    decreases |queries|
  {
    if queries == [] then None
    else match search(queries[0])
      case SearchFailed => None
      case Items(items) =>
        if |items| > 0 then
          assert DecidedBy(queries, search, 0);
          Some(SelectChannel(handle, items))
        else
          var r := ServerLookupFrom(handle, queries[1..], search);
          assert !DecidedBy(queries, search, 0);
          assert forall k :: k >= 1 ==> (DecidedBy(queries, search, k) <==> DecidedBy(queries[1..], search, k - 1)) by {
            forall k | k >= 1 ensures DecidedBy(queries, search, k) <==> DecidedBy(queries[1..], search, k - 1) {
              DecidedByLater(queries, search, k);
            }
          }
          if r.Some? then
            var k :| DecidedBy(queries[1..], search, k) && r.value == SelectChannel(handle, search(queries[1..][k]).items);
            assert DecidedBy(queries, search, k + 1);
            r
          else
            r
  }

  /** server.js `getChannelIdFromHandle`. */
  function ServerGetChannelIdFromHandle(handle: string, search: Search): Option<string> {
    ServerLookupFrom(handle, ServerQueries(handle), search)
  }

  /** A result declaring exactly "@handle" is chosen even when it is not listed first. */
  lemma ExactHandleWins(handle: string, search: Search, items: seq<ChannelItem>, k: nat)
    requires search("@" + handle) == Items(items)
    requires k < |items| && items[k].customUrl == Some("@" + Lower(handle))
    requires forall j :: 0 <= j < k ==> !Satisfies(ExactHandle, handle, items[j])
    ensures ServerGetChannelIdFromHandle(handle, search) == Some(items[k].channelId)
  {
    assert Satisfies(ExactHandle, handle, items[k]);
    assert Rank(handle, items[k]) == 0;
  }

  /** A handle without spaces or hyphens is a single word: the all-words rule never applies to it. */
  lemma SingleWordHandleNoWordRule(handle: string, item: ChannelItem)
    requires forall k :: 0 <= k < |handle| ==> !IsWordSeparator(handle[k])
    ensures !Satisfies(AllWords, handle, item)
  {
    var h := Lower(handle);
    forall k | 0 <= k < |h| ensures !IsWordSeparator(h[k]) {
      assert h[k] == LowerChar(handle[k]);
    }
    NoSeparatorOneWord(h, 0, 0);
  }

  // ---- lib/youtube.js: first result of the "@handle" search ----

  function LibQueries(handle: string): seq<string> {
    ["@" + handle, handle]
  }

  /** The query loop of lib/youtube.js: only an answer to the "@handle" query may return. */
  function LibLookupFrom(handle: string, queries: seq<string>, search: Search): Option<string>
    decreases |queries|
  {
    if queries == [] then None
    else match search(queries[0])
      case SearchFailed => None
      case Items(items) =>
        if |items| > 0 && queries[0] == "@" + handle then Some(items[0].channelId)
        else LibLookupFrom(handle, queries[1..], search)
  }

  /** lib/youtube.js `getChannelIdFromHandle`. */
  function LibGetChannelIdFromHandle(handle: string, search: Search): Option<string> {
    LibLookupFrom(handle, LibQueries(handle), search)
  }

  /**
   * Only the "@handle" query can produce an id, namely its first result: an empty answer there
   * gives null even when the bare-handle query finds channels.
   */
  lemma LibFirstResultOfAtQuery(handle: string, search: Search)
    ensures LibGetChannelIdFromHandle(handle, search)
            == match search("@" + handle)
               case Items(items) => if |items| > 0 then Some(items[0].channelId) else None
               case SearchFailed => None
  {
    assert handle != "@" + handle by {
      assert |"@" + handle| != |handle|;
    }
    var qs := LibQueries(handle);
    assert qs[1..] == [handle];
    assert LibLookupFrom(handle, [handle], search) == None by {
      assert [handle][1..] == [];
    }
  }

  // ---- the whole of extractChannelId ----

  /**
   * server.js `extractChannelId`: null for an address no shape matches, the captured id for a
   * direct address, and the ranked lookup's answer for a handle.
   */
  function ServerExtractChannelId(url: string, search: Search): (r: Option<string>)
    ensures ParseChannelUrl(url).None? ==> r.None?
    ensures forall id :: ParseChannelUrl(url) == Some(Direct(id)) ==> r == Some(id)
    ensures forall h :: ParseChannelUrl(url) == Some(ViaHandle(h)) ==> r == ServerGetChannelIdFromHandle(h, search)
  {
    match ParseChannelUrl(url)
    case None => None
    case Some(Direct(id)) => Some(id)
    case Some(ViaHandle(handle)) => ServerGetChannelIdFromHandle(handle, search)
  }

  /** lib/youtube.js `extractChannelId`: the same parsing, the first-result lookup. */
  function LibExtractChannelId(url: string, search: Search): (r: Option<string>)
    ensures ParseChannelUrl(url).None? ==> r.None?
    ensures forall id :: ParseChannelUrl(url) == Some(Direct(id)) ==> r == Some(id)
    ensures forall h :: ParseChannelUrl(url) == Some(ViaHandle(h)) ==> r == LibGetChannelIdFromHandle(h, search)
  {
    match ParseChannelUrl(url)
    case None => None
    case Some(Direct(id)) => Some(id)
    case Some(ViaHandle(handle)) => LibGetChannelIdFromHandle(handle, search)
  }

  /**
   * Without "/@" in the cleaned URL no search is made: both versions return the token captured by
   * the first matching shape (null when none matches), whatever the search would have answered.
   */
  lemma DirectAddressesAgree(url: string, search1: Search, search2: Search)
    requires !Contains(StripSubsection(url), "/@")
    ensures ServerExtractChannelId(url, search1) == FirstCaptureFrom(StripSubsection(url), 0)
    ensures LibExtractChannelId(url, search2) == FirstCaptureFrom(StripSubsection(url), 0)
  {
  }

  /** "youtube.com/channel/UC_x-1/videos" yields "UC_x-1" in both versions, without a search. */
  lemma ExampleDirectId(search: Search)
    ensures ServerExtractChannelId("youtube.com/channel/UC_x-1/videos", search) == Some("UC_x-1")
    ensures LibExtractChannelId("youtube.com/channel/UC_x-1/videos", search) == Some("UC_x-1")
  {
    ExampleDirectAddress();
  }

  /** "youtube.com/@Tech_Talks" asks the lookup about "Tech_Talks". */
  lemma ExampleHandleLookup(search: Search)
    ensures ServerExtractChannelId("youtube.com/@Tech_Talks", search) == ServerGetChannelIdFromHandle("Tech_Talks", search)
    ensures LibExtractChannelId("youtube.com/@Tech_Talks", search) == LibGetChannelIdFromHandle("Tech_Talks", search)
  {
    ExampleHandleAddress();
  }
}
