/**
 * The bucketing stages shared by the channel listing of pages/api/channel-videos.js and the
 * route in server.js: classified videos are pushed into `shorts` or `regularVideos`, one list
 * (or both, sorted newest first) is chosen by `contentType` and cut to `maxResults`, and the
 * returned items are counted by type.
 */
module Listing {

  /** `videoData`: what a route copies from a listing item; `publishedAt` is a timestamp. */
  datatype VideoData = VideoData(id: string, title: string, description: string,
                                 publishedAt: int, thumbnail: string)

  /** The `type` a returned item carries: 'short' or 'video'. */
  datatype Kind = Short | Regular

  datatype Entry = Entry(data: VideoData, kind: Kind)

  /** `{ videoData, isShort }`, one per listing item, in listing order. */
  datatype Processed = Processed(data: VideoData, isShort: bool)

  // ---- partition ----

  /** The `shorts` list: the Shorts, in listing order, tagged 'short'. */
  function ShortsOf(ps: seq<Processed>): seq<Entry> {
    if ps == [] then []
    else
      var last := ps[|ps| - 1];
      ShortsOf(ps[..|ps| - 1]) + if last.isShort then [Entry(last.data, Short)] else []
  }

  /** The `regularVideos` list: the others, in listing order, tagged 'video'. */
  function RegularOf(ps: seq<Processed>): seq<Entry> {
    if ps == [] then []
    else
      var last := ps[|ps| - 1];
      RegularOf(ps[..|ps| - 1]) + if last.isShort then [] else [Entry(last.data, Regular)]
  }

  /** The `forEach` that pushes every processed video into one of the two lists. */
  method Partition(ps: seq<Processed>) returns (shorts: seq<Entry>, regular: seq<Entry>)
    ensures shorts == ShortsOf(ps) && regular == RegularOf(ps)
  {
    shorts, regular := [], [];
    var i := 0;
    while i < |ps|
      invariant 0 <= i <= |ps|
      invariant shorts == ShortsOf(ps[..i]) && regular == RegularOf(ps[..i])
    {
      assert ps[..i + 1][..i] == ps[..i];
      if ps[i].isShort {
        shorts := shorts + [Entry(ps[i].data, Short)];
      } else {
        regular := regular + [Entry(ps[i].data, Regular)];
      }
      i := i + 1;
    }
    assert ps[..i] == ps;
  }

  function DataOf(es: seq<Entry>): seq<VideoData> {
    if es == [] then [] else DataOf(es[..|es| - 1]) + [es[|es| - 1].data]
  }

  function ProcessedData(ps: seq<Processed>): seq<VideoData> {
    if ps == [] then [] else ProcessedData(ps[..|ps| - 1]) + [ps[|ps| - 1].data]
  }

  /** Every processed video lands in exactly one of the two lists. */
  lemma {:induction false} PartitionSizes(ps: seq<Processed>)
    ensures |ShortsOf(ps)| + |RegularOf(ps)| == |ps|
  {
    if ps != [] {
      PartitionSizes(ps[..|ps| - 1]);
    }
  }

  /** Together the two lists hold the listed videos, each as often as listed. */
  lemma {:induction false} PartitionKeepsVideos(ps: seq<Processed>)
    ensures multiset(DataOf(ShortsOf(ps))) + multiset(DataOf(RegularOf(ps))) == multiset(ProcessedData(ps))
  {
    if ps != [] {
      var init, last := ps[..|ps| - 1], ps[|ps| - 1];
      PartitionKeepsVideos(init);
      assert ProcessedData(ps) == ProcessedData(init) + [last.data];
      if last.isShort {
        assert ShortsOf(ps) == ShortsOf(init) + [Entry(last.data, Short)];
        assert RegularOf(ps) == RegularOf(init);
        DataOfSnoc(ShortsOf(init), Entry(last.data, Short));
      } else {
        assert RegularOf(ps) == RegularOf(init) + [Entry(last.data, Regular)];
        assert ShortsOf(ps) == ShortsOf(init);
        DataOfSnoc(RegularOf(init), Entry(last.data, Regular));
      }
    }
  }

  /** Each list carries its own tag. */
  lemma {:induction false} PartitionTags(ps: seq<Processed>)
    ensures forall e :: e in ShortsOf(ps) ==> e.kind == Short
    ensures forall e :: e in RegularOf(ps) ==> e.kind == Regular
  {
    if ps != [] {
      PartitionTags(ps[..|ps| - 1]);
    }
  }

  lemma DataOfSnoc(es: seq<Entry>, e: Entry)
    ensures DataOf(es + [e]) == DataOf(es) + [e.data]
  {
    assert (es + [e])[..|es|] == es;
  }

  /** Order is kept: a Short listed before another Short comes first in `shorts`. */
  lemma {:induction false} ShortsKeepOrder(ps: seq<Processed>, i: nat, j: nat)
    requires i < j < |ps| && ps[i].isShort && ps[j].isShort
    ensures exists a, b :: 0 <= a < b < |ShortsOf(ps)|
              && ShortsOf(ps)[a].data == ps[i].data && ShortsOf(ps)[b].data == ps[j].data
  {
    var init := ps[..|ps| - 1];
    if j < |ps| - 1 {
      ShortsKeepOrder(init, i, j);
      var a, b :| 0 <= a < b < |ShortsOf(init)|
              && ShortsOf(init)[a].data == init[i].data && ShortsOf(init)[b].data == init[j].data;
      assert ShortsOf(ps)[a] == ShortsOf(init)[a] && ShortsOf(ps)[b] == ShortsOf(init)[b];
    } else {
      var a := ShortAt(init, i);
      var b := |ShortsOf(init)|;
      assert ShortsOf(ps)[a] == ShortsOf(init)[a];
      assert ShortsOf(ps)[b] == Entry(ps[j].data, Short);
    }
  }

  /** A listed Short has its place in `shorts`. */
  lemma {:induction false} ShortAt(ps: seq<Processed>, i: nat) returns (a: nat)
    requires i < |ps| && ps[i].isShort
    ensures a < |ShortsOf(ps)| && ShortsOf(ps)[a].data == ps[i].data
  {
    var init := ps[..|ps| - 1];
    if i == |ps| - 1 {
      a := |ShortsOf(init)|;
    } else {
      a := ShortAt(init, i);
      assert ShortsOf(ps)[a] == ShortsOf(init)[a];
    }
  }

  /** Order is kept in `regularVideos` too. */
  lemma {:induction false} RegularKeepOrder(ps: seq<Processed>, i: nat, j: nat)
    requires i < j < |ps| && !ps[i].isShort && !ps[j].isShort
    ensures exists a, b :: 0 <= a < b < |RegularOf(ps)|
              && RegularOf(ps)[a].data == ps[i].data && RegularOf(ps)[b].data == ps[j].data
  {
    var init := ps[..|ps| - 1];
    if j < |ps| - 1 {
      RegularKeepOrder(init, i, j);
      var a, b :| 0 <= a < b < |RegularOf(init)|
              && RegularOf(init)[a].data == init[i].data && RegularOf(init)[b].data == init[j].data;
      assert RegularOf(ps)[a] == RegularOf(init)[a] && RegularOf(ps)[b] == RegularOf(init)[b];
    } else {
      var a := RegularAt(init, i);
      var b := |RegularOf(init)|;
      assert RegularOf(ps)[a] == RegularOf(init)[a];
      assert RegularOf(ps)[b] == Entry(ps[j].data, Regular);
    }
  }

  /** A listed regular video has its place in `regularVideos`. */
  lemma {:induction false} RegularAt(ps: seq<Processed>, i: nat) returns (a: nat)
    requires i < |ps| && !ps[i].isShort
    ensures a < |RegularOf(ps)| && RegularOf(ps)[a].data == ps[i].data
  {
    var init := ps[..|ps| - 1];
    if i == |ps| - 1 {
      a := |RegularOf(init)|;
    } else {
      a := RegularAt(init, i);
      assert RegularOf(ps)[a] == RegularOf(init)[a];
    }
  }

  // ---- newest first ----

  /** Inserting the next item: it goes after every item at least as recent (a stable sort). */
  function Insert(s: seq<Entry>, x: Entry): seq<Entry> {
    if s == [] then [x]
    else if s[|s| - 1].data.publishedAt >= x.data.publishedAt then s + [x]
    else Insert(s[..|s| - 1], x) + [s[|s| - 1]]
  }

  /** `combined.sort((a, b) => b.publishedAt - a.publishedAt)`, a stable sort, newest first. */
  function NewestFirst(s: seq<Entry>): seq<Entry> {
    if s == [] then [] else Insert(NewestFirst(s[..|s| - 1]), s[|s| - 1])
  }

  predicate IsNewestFirst(s: seq<Entry>) {
    forall i, j :: 0 <= i < j < |s| ==> s[i].data.publishedAt >= s[j].data.publishedAt
  }

  /** Where the item goes: after the items at least as recent, before the older ones at the end. */
  lemma {:induction false} InsertSplit(s: seq<Entry>, x: Entry) returns (k: nat)
    ensures k <= |s| && Insert(s, x) == s[..k] + [x] + s[k..]
    ensures k > 0 ==> s[k - 1].data.publishedAt >= x.data.publishedAt
    ensures forall i :: k <= i < |s| ==> s[i].data.publishedAt < x.data.publishedAt
    decreases |s|
  {
    if s == [] {
      k := 0;
    } else if s[|s| - 1].data.publishedAt >= x.data.publishedAt {
      k := |s|;
    } else {
      var init := s[..|s| - 1];
      k := InsertSplit(init, x);
      assert init[..k] == s[..k];
      assert init[k..] + [s[|s| - 1]] == s[k..];
    }
  }

  lemma InsertKeepsOrder(s: seq<Entry>, x: Entry)
    requires IsNewestFirst(s)
    ensures IsNewestFirst(Insert(s, x)) && multiset(Insert(s, x)) == multiset(s) + multiset{x}
    ensures |Insert(s, x)| == |s| + 1
  {
    var k := InsertSplit(s, x);
    assert s == s[..k] + s[k..];
    SortedAround(s, k, x);
  }

  lemma SortedAround(s: seq<Entry>, k: nat, x: Entry)
    requires IsNewestFirst(s) && k <= |s|
    requires k > 0 ==> s[k - 1].data.publishedAt >= x.data.publishedAt
    requires forall i :: k <= i < |s| ==> s[i].data.publishedAt < x.data.publishedAt
    ensures IsNewestFirst(s[..k] + [x] + s[k..])
  {
    var r := s[..k] + [x] + s[k..];
    assert forall i :: 0 <= i < k ==> r[i] == s[i];
    assert forall i :: k < i < |r| ==> r[i] == s[i - 1];
    forall i, j | 0 <= i < j < |r| ensures r[i].data.publishedAt >= r[j].data.publishedAt {
      if j == k {
        assert s[i].data.publishedAt >= s[k - 1].data.publishedAt;
      } else if i < k {
        assert s[i].data.publishedAt >= s[j - 1].data.publishedAt;
      } else if i > k {
        assert s[i - 1].data.publishedAt >= s[j - 1].data.publishedAt;
      }
    }
  }

  /** The sort leaves the items newest first and is a permutation of its input. */
  lemma {:induction false} NewestFirstSortsAndPermutes(s: seq<Entry>)
    ensures IsNewestFirst(NewestFirst(s))
    ensures multiset(NewestFirst(s)) == multiset(s)
    ensures |NewestFirst(s)| == |s|
  {
    if s != [] {
      var init := s[..|s| - 1];
      NewestFirstSortsAndPermutes(init);
      InsertKeepsOrder(NewestFirst(init), s[|s| - 1]);
      assert s == init + [s[|s| - 1]];
    }
  }

  /** `x` goes right after the last item at least as new as it, with only older items behind. */
  lemma {:induction false} InsertAt(s: seq<Entry>, j: nat, x: Entry)
    requires j <= |s| && (j == 0 || s[j - 1].data.publishedAt >= x.data.publishedAt)
    requires forall k :: j <= k < |s| ==> s[k].data.publishedAt < x.data.publishedAt
    ensures Insert(s, x) == s[..j] + [x] + s[j..]
    decreases |s|
  {
    if j == |s| {
      assert s[..j] == s && s[j..] == [];
      assert Insert(s, x) == s + [x];
    } else {
      var init, last := s[..|s| - 1], s[|s| - 1];
      assert last.data.publishedAt < x.data.publishedAt;
      assert Insert(s, x) == Insert(init, x) + [last];
      forall k | j <= k < |init| ensures init[k].data.publishedAt < x.data.publishedAt {
        assert init[k] == s[k];
      }
      InsertAt(init, j, x);
      assert init[..j] == s[..j];
      assert init[j..] + [last] == s[j..];
    }
  }

  /** One insertion step: `a[i]` moves down past the older items before it. */
  method InsertStep(a: array<Entry>, i: nat)
    requires i < a.Length
    modifies a
    ensures a[..i + 1] == Insert(old(a[..i]), old(a[i]))
    ensures a[i + 1..] == old(a[i + 1..])
  {
    var x := a[i];
    ghost var sorted := a[..i];
    ghost var after := a[i + 1..];
    var j := i;
    while j > 0 && a[j - 1].data.publishedAt < x.data.publishedAt
      invariant 0 <= j <= i
      invariant forall k :: 0 <= k < j ==> a[k] == sorted[k]
      invariant forall k :: j < k <= i ==> a[k] == sorted[k - 1]
      invariant forall k :: i < k < a.Length ==> a[k] == after[k - i - 1]
      invariant forall k :: j <= k < i ==> sorted[k].data.publishedAt < x.data.publishedAt
    {
      a[j] := a[j - 1];
      j := j - 1;
    }
    a[j] := x;
    InsertAt(sorted, j, x);
    ghost var r := sorted[..j] + [x] + sorted[j..];
    forall k | 0 <= k <= i ensures a[k] == r[k] {
      if k < j {
        assert r[k] == sorted[k];
      } else if k > j {
        assert r[k] == sorted[k - 1];
      }
    }
    assert a[..i + 1] == r;
    assert a[i + 1..] == after;
  }

  /** The in-place sort on `combined`, as an insertion sort. */
  method SortNewestFirst(a: array<Entry>)
    modifies a
    ensures a[..] == NewestFirst(old(a[..]))
  {
    ghost var input := a[..];
    var i := 0;
    while i < a.Length
      invariant 0 <= i <= a.Length
      invariant a[..i] == NewestFirst(input[..i])
      invariant a[i..] == input[i..]
    {
      assert input[..i + 1][..i] == input[..i];
      assert a[i] == input[i];
      InsertStep(a, i);
      i := i + 1;
    }
    assert a[..] == a[..a.Length] && input == input[..a.Length];
  }

  // ---- selection by contentType ----

  /** `list.slice(0, n)`. */
  function Take(s: seq<Entry>, n: nat): (r: seq<Entry>)
    ensures |r| <= n && |r| <= |s| && (|r| == n || |r| == |s|)
    ensures r == s[..|r|]
  {
    if n <= |s| then s[..n] else s
  }

  /** What a `contentType` returns: a prefix of one list, the merged sorted list, or nothing. */
  function SelectContent(contentType: string, shorts: seq<Entry>, regular: seq<Entry>, maxResults: nat): seq<Entry> {
    if contentType == "shorts" then Take(shorts, maxResults)
    else if contentType == "videos" then Take(regular, maxResults)
    else if contentType == "both" then Take(NewestFirst(regular + shorts), maxResults)
    else []
  }

  /** The `if (contentType === ...)` chain, with the `both` list sorted in place. */
  method Select(contentType: string, shorts: seq<Entry>, regular: seq<Entry>, maxResults: nat)
    returns (all: seq<Entry>)
    ensures all == SelectContent(contentType, shorts, regular, maxResults)
  {
    if contentType == "shorts" {
      all := Take(shorts, maxResults);
    } else if contentType == "videos" {
      all := Take(regular, maxResults);
    } else if contentType == "both" {
      var combined := new Entry[|regular| + |shorts|](k requires 0 <= k < |regular| + |shorts| => (regular + shorts)[k]);
      assert combined[..] == regular + shorts;
      SortNewestFirst(combined);
      all := Take(combined[..], maxResults);
    } else {
      all := [];
    }
  }

  /** No item left out of `all` is newer than an item kept in `r`. */
  predicate NoNewerLeftOut(r: seq<Entry>, all: multiset<Entry>) {
    forall x, y :: x in r && y in all - multiset(r) ==> x.data.publishedAt >= y.data.publishedAt
  }

  /** A prefix of a newest-first list keeps its newest items. */
  lemma PrefixKeepsNewest(sorted: seq<Entry>, n: nat)
    requires IsNewestFirst(sorted) && n <= |sorted|
    ensures NoNewerLeftOut(sorted[..n], multiset(sorted))
  {
    var r, rest := sorted[..n], sorted[n..];
    assert sorted == r + rest;
    assert multiset(sorted) - multiset(r) == multiset(rest);
    forall x, y | x in r && y in multiset(rest) ensures x.data.publishedAt >= y.data.publishedAt {
      var i :| 0 <= i < n && r[i] == x;
      var j :| 0 <= j < |rest| && rest[j] == y;
      assert sorted[i] == x && sorted[n + j] == y;
    }
  }

  /**
   * What 'both' promises of its result `r`: newest first, drawn from `all`, missing no item newer
   * than one it keeps, a prefix of the stable sort, and `maxResults` long unless `all` is
   * shorter.
   */
  predicate KeptNewest(r: seq<Entry>, all: seq<Entry>, maxResults: nat) {
    && IsNewestFirst(r) && multiset(r) <= multiset(all)
    && NoNewerLeftOut(r, multiset(all))
    && r <= NewestFirst(all)
    && |r| == Min(maxResults, |all|)
  }

  lemma BothKeepsNewest(all: seq<Entry>, maxResults: nat)
    ensures KeptNewest(Take(NewestFirst(all), maxResults), all, maxResults)
  {
    var sorted := NewestFirst(all);
    NewestFirstSortsAndPermutes(all);
    var r := Take(sorted, maxResults);
    assert sorted == r + sorted[|r|..];
    assert multiset(sorted) == multiset(r) + multiset(sorted[|r|..]);
    PrefixKeepsNewest(sorted, |r|);
    assert r == sorted[..|r|];
  }

  /**
   * The selection's promises: never more than `maxResults` items; 'shorts' and 'videos' give a
   * prefix of their list; 'both' gives the newest items of the two lists together, newest first;
   * any other type gives nothing.
   */
  lemma SelectContentMeaning(contentType: string, shorts: seq<Entry>, regular: seq<Entry>, maxResults: nat)
    ensures var r := SelectContent(contentType, shorts, regular, maxResults);
      && |r| <= maxResults
      && (contentType == "shorts" ==> r == shorts[..|r|] && |r| == Min(maxResults, |shorts|))
      && (contentType == "videos" ==> r == regular[..|r|] && |r| == Min(maxResults, |regular|))
      && (contentType == "both" ==> KeptNewest(r, regular + shorts, maxResults))
      && (contentType !in {"shorts", "videos", "both"} ==> r == [])
  {
    if contentType == "both" {
      BothKeepsNewest(regular + shorts, maxResults);
    }
  }

  function Min(a: nat, b: nat): nat {
    if a <= b then a else b
  }

  // ---- counts ----

  datatype Counts = Counts(regular: nat, shorts: nat, returned: nat)

  /** `allVideos.filter(v => v.type !== 'short').length`. */
  function CountRegular(es: seq<Entry>): nat {
    if es == [] then 0 else CountRegular(es[..|es| - 1]) + if es[|es| - 1].kind != Short then 1 else 0
  }

  /** `allVideos.filter(v => v.type === 'short').length`. */
  function CountShorts(es: seq<Entry>): nat {
    if es == [] then 0 else CountShorts(es[..|es| - 1]) + if es[|es| - 1].kind == Short then 1 else 0
  }

  function CountsOf(all: seq<Entry>): Counts {
    Counts(CountRegular(all), CountShorts(all), |all|)
  }

  /** The two displayed counts add up to the number of returned items. */
  lemma {:induction false} CountsAddUp(all: seq<Entry>)
    ensures CountsOf(all).regular + CountsOf(all).shorts == CountsOf(all).returned
  {
    if all != [] {
      CountsAddUp(all[..|all| - 1]);
    }
  }

  /** A list taken from `shorts` counts only Shorts. */
  lemma {:induction false} ShortsCountAsShorts(es: seq<Entry>)
    requires forall e :: e in es ==> e.kind == Short
    ensures CountShorts(es) == |es| && CountRegular(es) == 0
  {
    if es != [] {
      assert es[..|es| - 1] <= es;
      ShortsCountAsShorts(es[..|es| - 1]);
    }
  }

  /** A list taken from `regularVideos` counts no Shorts. */
  lemma {:induction false} RegularCountAsRegular(es: seq<Entry>)
    requires forall e :: e in es ==> e.kind == Regular
    ensures CountShorts(es) == 0 && CountRegular(es) == |es|
  {
    if es != [] {
      assert es[..|es| - 1] <= es;
      RegularCountAsRegular(es[..|es| - 1]);
    }
  }

  // ---- the three stages together ----

  /** Partition, selection by `contentType` and the displayed counts, as the routes run them. */
  method Respond(contentType: string, ps: seq<Processed>, maxResults: nat)
    returns (videos: seq<Entry>, counts: Counts)
    ensures videos == SelectContent(contentType, ShortsOf(ps), RegularOf(ps), maxResults)
    ensures counts == CountsOf(videos)
  {
    var shorts, regular := Partition(ps);
    videos := Select(contentType, shorts, regular, maxResults);
    counts := CountsOf(videos);
  }

  /**
   * What a listing returns for the processed videos: at most `maxResults` items whose counts add
   * up; only Shorts for 'shorts', only regular videos for 'videos'; for 'both', the newest items
   * of the two lists together, newest first; nothing for any other type.
   */
  lemma RespondMeaning(contentType: string, ps: seq<Processed>, maxResults: nat)
    ensures var v := SelectContent(contentType, ShortsOf(ps), RegularOf(ps), maxResults);
      && CountsOf(v).regular + CountsOf(v).shorts == CountsOf(v).returned == |v| <= maxResults
      && (contentType == "shorts" ==> v == ShortsOf(ps)[..|v|] && CountsOf(v).regular == 0 && CountsOf(v).shorts == |v|)
      && (contentType == "videos" ==> v == RegularOf(ps)[..|v|] && CountsOf(v).shorts == 0 && CountsOf(v).regular == |v|)
      && (contentType == "both" ==>
            KeptNewest(v, RegularOf(ps) + ShortsOf(ps), maxResults) && |v| == Min(maxResults, |ps|))
      && (contentType !in {"shorts", "videos", "both"} ==> v == [])
  {
    var v := SelectContent(contentType, ShortsOf(ps), RegularOf(ps), maxResults);
    SelectContentMeaning(contentType, ShortsOf(ps), RegularOf(ps), maxResults);
    CountsAddUp(v);
    PartitionTags(ps);
    PartitionSizes(ps);
    if contentType == "shorts" {
      assert forall e :: e in v ==> e in ShortsOf(ps);
      ShortsCountAsShorts(v);
    } else if contentType == "videos" {
      assert forall e :: e in v ==> e in RegularOf(ps);
      RegularCountAsRegular(v);
    }
  }
}
