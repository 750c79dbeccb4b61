/**
 * The URL half of `extractChannelId` (the same code in server.js and lib/youtube.js): cut a
 * channel-subsection tail, try the four address shapes in order, and tell a handle address (the
 * URL holds "/@") from one that names the channel directly.
 */
module ChannelUrl {
  import opened Wrappers
  import opened Strings

  /** A subsection keyword after a slash, where `\/(videos|shorts|playlists|community|about)` matches. */
  predicate SubsectionAt(url: string, i: int) {
    || OccursAt(url, "/videos", i) || OccursAt(url, "/shorts", i) || OccursAt(url, "/playlists", i)
    || OccursAt(url, "/community", i) || OccursAt(url, "/about", i)
  }

  /** The whole suffix pattern matches at `i`: `.*$` needs the rest of the URL to be one line. */
  predicate CutsAt(url: string, i: int) {
    SubsectionAt(url, i) && NoLineTerminator(url[i..])
  }

  function FirstCutFrom(url: string, i: nat): (r: Option<nat>)
    ensures r.Some? ==> i <= r.value < |url| && CutsAt(url, r.value)
    ensures r.Some? ==> forall k :: i <= k < r.value ==> !CutsAt(url, k)
    ensures r.None? ==> forall k :: i <= k ==> !CutsAt(url, k)
    decreases |url| - i
  {
    if i >= |url| then None
    else if CutsAt(url, i) then Some(i)
    else FirstCutFrom(url, i + 1)
  }

  /** `url.replace(/\/(videos|shorts|playlists|community|about).*$/, '')`. */
  function StripSubsection(url: string): (r: string)
    ensures StartsWith(url, r)
    ensures r == url <==> forall k :: !CutsAt(url, k)
    ensures r != url ==> CutsAt(url, |r|) && forall k :: 0 <= k < |r| ==> !CutsAt(url, k)
  {
    match FirstCutFrom(url, 0)
    case None => url
    case Some(i) => url[..i]
  }

  /** `[a-zA-Z0-9_-]`. */
  predicate IsIdChar(c: char) {
    ('a' <= c <= 'z') || ('A' <= c <= 'Z') || ('0' <= c <= '9') || c == '_' || c == '-'
  }

  predicate AllIdChars(s: string) {
    forall k :: 0 <= k < |s| ==> IsIdChar(s[k])
  }

  /** End of the maximal run of identifier characters from `i`: what the greedy `+` takes. */
  function IdRunEnd(s: string, i: nat): (j: nat)
    requires i <= |s|
    ensures i <= j <= |s|
    ensures forall k :: i <= k < j ==> IsIdChar(s[k])
    ensures j == |s| || !IsIdChar(s[j])
    decreases |s| - i
  {
    if i < |s| && IsIdChar(s[i]) then IdRunEnd(s, i + 1) else i
  }

  /** `prefix([a-zA-Z0-9_-]+)` matches at `i`. */
  predicate PatternAt(s: string, prefix: string, i: int) {
    OccursAt(s, prefix, i) && i + |prefix| < |s| && IsIdChar(s[i + |prefix|])
  }

  function FirstPatternFrom(s: string, prefix: string, i: nat): (r: Option<nat>)
    ensures r.Some? ==> i <= r.value && PatternAt(s, prefix, r.value)
    ensures r.Some? ==> forall k :: i <= k < r.value ==> !PatternAt(s, prefix, k)
    ensures r.None? ==> forall k :: i <= k ==> !PatternAt(s, prefix, k)
    decreases |s| - i
  {
    if i >= |s| then None
    else if PatternAt(s, prefix, i) then Some(i)
    else FirstPatternFrom(s, prefix, i + 1)
  }

  /**
   * `t` is what `prefix([a-zA-Z0-9_-]+)` captures when its leftmost match starts at `i`: the
   * identifier characters right after `prefix`, up to the first character that is not one.
   */
  predicate LeftmostGreedy(s: string, prefix: string, i: nat, t: string) {
    var start := i + |prefix|;
    && PatternAt(s, prefix, i)
    && (forall k :: 0 <= k < i ==> !PatternAt(s, prefix, k))
    && start + |t| <= |s| && s[start..start + |t|] == t && AllIdChars(t)
    && (start + |t| == |s| || !IsIdChar(s[start + |t|]))
  }

  /**
   * `s.match(/prefix([a-zA-Z0-9_-]+)/)[1]`: the identifier after the leftmost occurrence of
   * `prefix` that is followed by one, taken as long as possible.
   */
  function Capture(s: string, prefix: string): (r: Option<string>)
    ensures r.Some? ==> r.value != [] && exists i :: LeftmostGreedy(s, prefix, i, r.value)
    ensures r.None? <==> forall k :: !PatternAt(s, prefix, k)
  {
    match FirstPatternFrom(s, prefix, 0)
    case None => None
    case Some(i) =>
      var start := i + |prefix|;
      var t := s[start..IdRunEnd(s, start)];
      assert LeftmostGreedy(s, prefix, i, t);
      Some(t)
  }

  /** The leftmost greedy match is the only one: whatever meets it is what `Capture` returns. */
  lemma CaptureIsLeftmostGreedy(s: string, prefix: string, i: nat, t: string)
    requires LeftmostGreedy(s, prefix, i, t)
    ensures Capture(s, prefix) == Some(t)
  {
    var start := i + |prefix|;
    assert FirstPatternFrom(s, prefix, 0) == Some(i);
    var e := IdRunEnd(s, start);
    forall k | start <= k < start + |t| ensures IsIdChar(s[k]) {
      assert s[start..start + |t|][k - start] == s[k];
      assert IsIdChar(t[k - start]);
    }
    assert e == start + |t|;
  }

  /** The four address shapes, in the order they are tried. */
  const Patterns: seq<string> :=
    ["youtube.com/channel/", "youtube.com/c/", "youtube.com/@", "youtube.com/user/"]

  /** Shape `j` is the first shape from `k` on that matches `s`. */
  predicate FirstMatchingShape(s: string, k: nat, j: nat) {
    && k <= j < |Patterns|
    && Capture(s, Patterns[j]).Some?
    && forall j' :: k <= j' < j ==> Capture(s, Patterns[j']).None?
  }

  /** The `for (const pattern of patterns)` loop: the capture of the first shape that matches. */
  function FirstCaptureFrom(s: string, k: nat): (r: Option<string>)
    requires k <= |Patterns|
    ensures r.Some? <==> exists j :: k <= j < |Patterns| && Capture(s, Patterns[j]).Some?
    ensures r.Some? ==> exists j: nat :: FirstMatchingShape(s, k, j) && r == Capture(s, Patterns[j])
    decreases |Patterns| - k
  {
    if k == |Patterns| then None
    else match Capture(s, Patterns[k])
      case Some(t) =>
        assert FirstMatchingShape(s, k, k);
        Some(t)
      case None =>
        var r := FirstCaptureFrom(s, k + 1);
        SkipUnmatchedShape(s, k, r);
        r
  }

  /** A shape that does not match leaves the first matching one to the shapes after it. */
  lemma SkipUnmatchedShape(s: string, k: nat, r: Option<string>)
    requires k < |Patterns| && Capture(s, Patterns[k]).None?
    requires r.Some? ==> exists j: nat :: FirstMatchingShape(s, k + 1, j) && r == Capture(s, Patterns[j])
    ensures r.Some? ==> exists j: nat :: FirstMatchingShape(s, k, j) && r == Capture(s, Patterns[j])
  {
    if r.Some? {
      var j: nat :| FirstMatchingShape(s, k + 1, j) && r == Capture(s, Patterns[j]);
      assert FirstMatchingShape(s, k, j);
    }
  }

  /** A channel reference: an id taken as it stands, or a handle still to be looked up. */
  datatype ChannelRef = Direct(id: string) | ViaHandle(handle: string)
  {
    /** The captured token, whichever way it is used. */
    function Token(): string {
      match this
      case Direct(id) => id
      case ViaHandle(handle) => handle
    }
  }

  /**
   * The parsing part of `extractChannelId`: `None` is its `return null`. The token is the
   * capture of the first shape that matches the cleaned URL, and it goes to handle lookup exactly
   * when the cleaned URL holds "/@".
   */
  function ParseChannelUrl(url: string): (r: Option<ChannelRef>)
    ensures r.Some? <==> exists j :: 0 <= j < |Patterns| && Capture(StripSubsection(url), Patterns[j]).Some?
    ensures r.Some? ==> exists j: nat :: FirstMatchingShape(StripSubsection(url), 0, j)
                                    && Capture(StripSubsection(url), Patterns[j]) == Some(r.value.Token())
    ensures r.Some? ==> (r.value.ViaHandle? <==> Contains(StripSubsection(url), "/@"))
  {
    var clean := StripSubsection(url);
    match FirstCaptureFrom(clean, 0)
    case None => None
    case Some(t) => if Contains(clean, "/@") then Some(ViaHandle(t)) else Some(Direct(t))
  }

  /**
   * The cut happens at the first "/keyword" even when the keyword only begins a longer path
   * segment: "/aboutme" and "/shortsfan" are cut like "/about" and "/shorts".
   */
  lemma CutsAtFirstKeyword(a: string, tail: string)
    requires forall k :: !SubsectionAt(a, k)
    requires SubsectionAt(tail, 0) && NoLineTerminator(tail)
    ensures StripSubsection(a + tail) == a
  {
    var url := a + tail;
    assert url[|a|..] == tail;
    OccursAfter(a, tail, "/videos");
    OccursAfter(a, tail, "/shorts");
    OccursAfter(a, tail, "/playlists");
    OccursAfter(a, tail, "/community");
    OccursAfter(a, tail, "/about");
    assert CutsAt(url, |a|);
    forall k | 0 <= k < |a| ensures !SubsectionAt(url, k) {
      assert !SubsectionAt(a, k);
      OccursBefore(a, tail, "/videos", k);
      OccursBefore(a, tail, "/shorts", k);
      OccursBefore(a, tail, "/playlists", k);
      OccursBefore(a, tail, "/community", k);
      OccursBefore(a, tail, "/about", k);
    }
  }

  lemma OccursAfter(a: string, tail: string, p: string)
    ensures OccursAt(a + tail, p, |a|) <==> OccursAt(tail, p, 0)
  {
    if |p| <= |tail| {
      assert (a + tail)[|a|..|a| + |p|] == tail[0..|p|];
    }
  }

  /** A "/keyword" starting inside `a` cannot run on into a tail that starts with a slash. */
  lemma OccursBefore(a: string, tail: string, p: string, k: nat)
    requires k < |a| && tail != [] && tail[0] == '/'
    requires forall j :: 0 < j < |p| ==> p[j] != '/'
    ensures OccursAt(a + tail, p, k) ==> OccursAt(a, p, k)
  {
    var url := a + tail;
    if k + |p| <= |a| {
      assert url[k..k + |p|] == a[k..k + |p|];
    } else if k + |p| <= |url| {
      assert url[k..k + |p|][|a| - k] == '/';
    }
  }

  // ---- two addresses worked through ----

  /** The first three characters of a match of `p` are those of `p`. */
  lemma MatchStart(url: string, p: string, k: int)
    requires OccursAt(url, p, k) && |p| >= 3
    ensures url[k] == p[0] && url[k + 1] == p[1] && url[k + 2] == p[2]
  {
    assert url[k..k + |p|] == p;
    assert url[k..k + |p|][1] == url[k + 1] && url[k..k + |p|][2] == url[k + 2];
  }

  /** A subsection match starts with a slash and one of the keywords' first letters. */
  lemma SubsectionShape(url: string, k: int)
    ensures SubsectionAt(url, k) ==>
      && 0 <= k && k + 3 <= |url| && url[k] == '/'
      && (url[k + 1] == 'v' || url[k + 1] == 's' || url[k + 1] == 'p' || url[k + 1] == 'a'
          || (url[k + 1] == 'c' && url[k + 2] == 'o'))
  {
    if OccursAt(url, "/videos", k) { MatchStart(url, "/videos", k); }
    if OccursAt(url, "/shorts", k) { MatchStart(url, "/shorts", k); }
    if OccursAt(url, "/playlists", k) { MatchStart(url, "/playlists", k); }
    if OccursAt(url, "/community", k) { MatchStart(url, "/community", k); }
    if OccursAt(url, "/about", k) { MatchStart(url, "/about", k); }
  }

  /** Text without a slash holds no subsection. */
  lemma NoSubsectionWithoutSlash(x: string)
    requires '/' !in x
    ensures forall k :: !SubsectionAt(x, k)
  {
    forall k ensures !SubsectionAt(x, k) {
      SubsectionShape(x, k);
    }
  }

  /** Appending "/" and a slash-free segment that starts no keyword adds no subsection. */
  lemma NoSubsectionJoin(x: string, y: string)
    requires forall k :: !SubsectionAt(x, k)
    requires '/' !in y && |y| >= 2 && y[0] != 'v' && y[0] != 's' && y[0] != 'p' && y[0] != 'a'
    requires !(y[0] == 'c' && y[1] == 'o')
    ensures forall k :: !SubsectionAt(x + "/" + y, k)
  {
    var t := "/" + y;
    var u := x + t;
    assert x + "/" + y == u;
    forall k ensures !SubsectionAt(u, k) {
      SubsectionShape(u, k);
      if 0 <= k < |x| {
        assert !SubsectionAt(x, k);
        OccursBefore(x, t, "/videos", k);
        OccursBefore(x, t, "/shorts", k);
        OccursBefore(x, t, "/playlists", k);
        OccursBefore(x, t, "/community", k);
        OccursBefore(x, t, "/about", k);
        assert !SubsectionAt(u, k);
      } else if k == |x| {
        assert u[k + 1] == y[0] && u[k + 2] == y[1];
        assert !SubsectionAt(u, k);
      } else if |x| < k < |u| {
        assert u[k] == y[k - |x| - 1];
        assert !SubsectionAt(u, k);
      }
    }
  }

  /** Text without '@' holds no "/@", so it never goes to handle lookup. */
  lemma NoHandleWithoutAt(s: string)
    requires '@' !in s
    ensures !Contains(s, "/@")
  {
    forall k | 0 <= k ensures !OccursAt(s, "/@", k) {
      if k + 2 <= |s| {
        assert s[k..k + 2][1] == s[k + 1];
      }
    }
  }

  const DirectAddress := "youtube.com/channel/UC_x-1"
  const HandleAddress := "youtube.com/@Tech_Talks"

  lemma DirectAddressClean()
    ensures StripSubsection(DirectAddress + "/videos") == DirectAddress
  {
    NoSubsectionWithoutSlash("youtube.com");
    NoSubsectionJoin("youtube.com", "channel");
    assert "youtube.com" + "/" + "channel" + "/" + "UC_x-1" == DirectAddress;
    NoSubsectionJoin("youtube.com" + "/" + "channel", "UC_x-1");
    CutsAtFirstKeyword(DirectAddress, "/videos");
  }

  lemma DirectAddressCapture()
    ensures Capture(DirectAddress, Patterns[0]) == Some("UC_x-1")
  {
    var a, p := DirectAddress, Patterns[0];
    assert p == "youtube.com/channel/" && a == p + "UC_x-1";
    assert a[0..20] == p && a[20..26] == "UC_x-1";
    assert AllIdChars("UC_x-1");
    assert LeftmostGreedy(a, p, 0, "UC_x-1");
    CaptureIsLeftmostGreedy(a, p, 0, "UC_x-1");
  }

  lemma DirectAddressHasNoHandle()
    ensures !Contains(DirectAddress, "/@")
  {
    assert DirectAddress == "youtube.com/channel/UC_x-1";
    assert '@' !in "youtube.com/channel/UC_x-1";
    NoHandleWithoutAt(DirectAddress);
  }

  /** A `/channel/` address: the id is taken as it stands, a trailing "/videos" cut off first. */
  lemma ExampleDirectAddress()
    ensures ParseChannelUrl("youtube.com/channel/UC_x-1/videos") == Some(Direct("UC_x-1"))
  {
    var url := "youtube.com/channel/UC_x-1/videos";
    assert url == DirectAddress + "/videos";
    DirectAddressClean();
    DirectAddressCapture();
    assert FirstCaptureFrom(DirectAddress, 0) == Some("UC_x-1");
    DirectAddressHasNoHandle();
    assert StripSubsection(url) == DirectAddress;
  }

  lemma HandleAddressClean()
    ensures StripSubsection(HandleAddress) == HandleAddress
  {
    NoSubsectionWithoutSlash("youtube.com");
    NoSubsectionJoin("youtube.com", "@Tech_Talks");
    assert "youtube.com" + "/" + "@Tech_Talks" == HandleAddress;
  }

  /** Only the first character is a 'y', and the text there continues "/@", not "/c". */
  lemma HandleAddressSkips(j: nat)
    requires j < 2
    ensures Capture(HandleAddress, Patterns[j]).None?
  {
    var a, r, p := HandleAddress, "outube.com/@Tech_Talks", Patterns[j];
    assert a == "y" + r && 'y' !in r && a[12] == '@';
    assert p[0] == 'y' && p[12] == 'c';
    forall k ensures !PatternAt(a, p, k) {
      if 0 <= k && k + |p| <= |a| {
        assert a[k..k + |p|][0] == a[k];
        assert a[k..k + |p|][12] == a[k + 12];
        if k > 0 {
          assert a[k] == r[k - 1];
        }
      }
    }
  }

  lemma HandleAddressCapture()
    ensures Capture(HandleAddress, Patterns[2]) == Some("Tech_Talks")
  {
    var a, p := HandleAddress, Patterns[2];
    assert p == "youtube.com/@" && a == p + "Tech_Talks";
    assert a[0..13] == p && a[13..23] == "Tech_Talks";
    assert AllIdChars("Tech_Talks");
    assert LeftmostGreedy(a, p, 0, "Tech_Talks");
    CaptureIsLeftmostGreedy(a, p, 0, "Tech_Talks");
  }

  lemma HandleAddressHasHandle()
    ensures Contains(HandleAddress, "/@")
  {
    assert HandleAddress[11..13] == "/@";
    ContainsAt(HandleAddress, "/@", 11);
  }

  /** A `/@` address: the first two shapes do not match, the third captures the handle. */
  lemma ExampleHandleAddress()
    ensures ParseChannelUrl("youtube.com/@Tech_Talks") == Some(ViaHandle("Tech_Talks"))
  {
    HandleAddressClean();
    HandleAddressSkips(0);
    HandleAddressSkips(1);
    HandleAddressCapture();
    assert FirstCaptureFrom(HandleAddress, 2) == Some("Tech_Talks");
    assert FirstCaptureFrom(HandleAddress, 0) == Some("Tech_Talks");
    HandleAddressHasHandle();
  }
}
