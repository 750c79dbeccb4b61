/**
 * The duration codec: `parseDuration` (identical in server.js and lib/youtube.js), which reads
 * the hours/minutes/seconds part of an ISO 8601 duration (section 4.4.3.2 of ISO 8601) with the
 * unanchored pattern `PT(?:(\d+)H)?(?:(\d+)M)?(?:(\d+)S)?` and answers 3600*H + 60*M + S.
 * `Format` is its inverse on the compact form, used to state the round trip.
 */
module Duration {
  import opened Wrappers
  import opened Strings

  /** End of the maximal run of decimal digits that starts at `i` (what a greedy `\d+` takes). */
  function DigitRunEnd(s: string, i: nat): (j: nat)
    requires i <= |s|
    ensures i <= j <= |s|
    ensures forall k :: i <= k < j ==> IsDigit(s[k])
    ensures j == |s| || !IsDigit(s[j])
    decreases |s| - i
  {
    if i < |s| && IsDigit(s[i]) then DigitRunEnd(s, i + 1) else i
  }

  predicate AllDigits(d: string) {
    forall k :: 0 <= k < |d| ==> IsDigit(d[k])
  }

  /** `parseInt` of a string made of decimal digits only. */
  function DigitsValue(d: string): nat
    requires AllDigits(d)
  {
    if d == [] then 0 else 10 * DigitsValue(d[..|d| - 1]) + (d[|d| - 1] as int - '0' as int)
  }

  /** Where a group of the pattern ended and, when it matched, the number it captured. */
  datatype Group = Group(value: Option<nat>, next: nat)

  /**
   * The optional group `(?:(\d+)U)?` tried at `i`: it matches when a run of digits is followed by
   * the unit letter `unit` (backing off to a shorter run cannot help, since a digit is never `unit`).
   */
  function MatchGroup(s: string, i: nat, unit: char): (g: Group)
    requires i <= |s| && !IsDigit(unit)
    ensures i <= g.next <= |s|
  {
    var j := DigitRunEnd(s, i);
    if i < j && j < |s| && s[j] == unit then Group(Some(DigitsValue(s[i..j])), j + 1)
    else Group(None, i)
  }

  /** The three optional groups read from `i` on: 3600*H + 60*M + S, an unmatched group counting 0. */
  function ReadGroups(s: string, i: nat): nat
    requires i <= |s|
  {
    var h := MatchGroup(s, i, 'H');
    var m := MatchGroup(s, h.next, 'M');
    var sec := MatchGroup(s, m.next, 'S');
    3600 * h.value.GetOr(0) + 60 * m.value.GetOr(0) + sec.value.GetOr(0)
  }

  /** `parseDuration`: 0 when the string holds no "PT", otherwise the groups after the first "PT". */
  function ParseDuration(s: string): (r: nat)
    ensures !Contains(s, "PT") ==> r == 0
  {
    match IndexOf(s, "PT")
    case None => 0
    case Some(i) => ReadGroups(s, i + 2)
  }

  // ---- the inverse: writing a compact duration ----

  /** The fields of a compact duration; an absent field is not written at all. */
  datatype Fields = Fields(hours: Option<nat>, minutes: Option<nat>, seconds: Option<nat>)

  function TotalSeconds(f: Fields): nat {
    3600 * f.hours.GetOr(0) + 60 * f.minutes.GetOr(0) + f.seconds.GetOr(0)
  }

  function DigitChar(d: nat): char
    requires d < 10
  {
    ('0' as int + d) as char
  }

  /** Decimal notation of `n`, without leading zeros. */
  function NatToDigits(n: nat): (d: string)
    ensures |d| > 0 && AllDigits(d)
  {
    if n < 10 then [DigitChar(n)] else NatToDigits(n / 10) + [DigitChar(n % 10)]
  }

  function Part(v: Option<nat>, unit: char): string {
    match v
    case None => ""
    case Some(n) => NatToDigits(n) + [unit]
  }

  function Format(f: Fields): string {
    "PT" + Part(f.hours, 'H') + Part(f.minutes, 'M') + Part(f.seconds, 'S')
  }

  lemma {:induction false} DigitsValueOfNatToDigits(n: nat)
    ensures DigitsValue(NatToDigits(n)) == n
  {
    if n >= 10 {
      var d := NatToDigits(n);
      assert d[..|d| - 1] == NatToDigits(n / 10);
      DigitsValueOfNatToDigits(n / 10);
    }
  }

  /** A group whose text is present at `i` is read back as the number written there. */
  lemma GroupPresent(s: string, i: nat, n: nat, unit: char, tail: string)
    requires !IsDigit(unit) && i <= |s|
    requires s[i..] == NatToDigits(n) + [unit] + tail
    ensures MatchGroup(s, i, unit) == Group(Some(n), i + |NatToDigits(n)| + 1)
  {
    var d := NatToDigits(n);
    var j := i + |d|;
    assert s[i..j] == s[i..][..|d|] == d;
    assert s[j] == s[i..][|d|] == unit;
    forall k | i <= k < j ensures IsDigit(s[k]) {
      assert s[k] == d[k - i];
    }
    assert DigitRunEnd(s, i) == j;
    DigitsValueOfNatToDigits(n);
  }

  /** When another unit's group stands at `i`, this group is skipped. */
  lemma GroupSkipped(s: string, i: nat, unit: char, n: nat, other: char, tail: string)
    requires !IsDigit(unit) && !IsDigit(other) && other != unit && i <= |s|
    requires s[i..] == NatToDigits(n) + [other] + tail
    ensures MatchGroup(s, i, unit) == Group(None, i)
  {
    var d := NatToDigits(n);
    forall k | i <= k < i + |d| ensures IsDigit(s[k]) {
      assert s[k] == s[i..][k - i] == d[k - i];
    }
    assert s[i + |d|] == s[i..][|d|] == other;
    assert DigitRunEnd(s, i) == i + |d|;
  }

  /** At the end of the text every group is skipped. */
  lemma GroupAtEnd(s: string, unit: char)
    requires !IsDigit(unit)
    ensures MatchGroup(s, |s|, unit) == Group(None, |s|)
  {
  }

  /**
   * The group of unit `unit` at `i`, given the parts that follow it in `Format`: it reads its own
   * part when present, and is skipped when absent (the next present group has another unit).
   */
  lemma PartRead(s: string, i: nat, v: Option<nat>, unit: char,
                 v2: Option<nat>, u2: char, v3: Option<nat>, u3: char)
    requires !IsDigit(unit) && !IsDigit(u2) && !IsDigit(u3) && u2 != unit && u3 != unit
    requires i <= |s| && s[i..] == Part(v, unit) + (Part(v2, u2) + Part(v3, u3))
    ensures MatchGroup(s, i, unit) == Group(v, i + |Part(v, unit)|)
  {
    match v
    case Some(n) =>
      GroupPresent(s, i, n, unit, Part(v2, u2) + Part(v3, u3));
    case None =>
      if v2.Some? {
        GroupSkipped(s, i, unit, v2.value, u2, Part(v3, u3));
      } else if v3.Some? {
        GroupSkipped(s, i, unit, v3.value, u3, []);
      } else {
        GroupAtEnd(s, unit);
      }
  }

  /** Round trip: reading back a written duration gives 3600*H + 60*M + S, absent fields counting 0. */
  lemma ParseFormat(f: Fields)
    ensures ParseDuration(Format(f)) == TotalSeconds(f)
  {
    var s := Format(f);
    assert s == "PT" + (Part(f.hours, 'H') + Part(f.minutes, 'M') + Part(f.seconds, 'S'));
    assert IndexOf(s, "PT") == Some(0) by {
      assert s[0..2] == "PT";
    }
    ReadWrittenGroups(s, 2, f);
  }

  /** What follows a prefix of a suffix. */
  lemma SuffixAfter(s: string, i: nat, a: string, b: string)
    requires i <= |s| && s[i..] == a + b
    ensures i + |a| <= |s| && s[i + |a|..] == b
  {
    assert s[i + |a|..] == s[i..][|a|..];
  }

  /** `ReadGroups` from the three groups it matches. */
  lemma ReadGroupsOf(s: string, i: nat, h: Group, m: Group, sec: Group)
    requires i <= |s|
    requires MatchGroup(s, i, 'H') == h && MatchGroup(s, h.next, 'M') == m
    requires MatchGroup(s, m.next, 'S') == sec
    ensures ReadGroups(s, i) == 3600 * h.value.GetOr(0) + 60 * m.value.GetOr(0) + sec.value.GetOr(0)
  {
  }

  /** Where the three written parts start, each followed by what comes after it. */
  lemma WrittenParts(s: string, i: nat, ph: string, pm: string, ps: string)
    requires i <= |s| && s[i..] == ph + pm + ps
    ensures i + |ph| + |pm| + |ps| == |s|
    ensures s[i..] == ph + (pm + ps)
    ensures s[i + |ph|..] == pm + (ps + "")
    ensures s[i + |ph| + |pm|..] == ps + ("" + "")
  {
    SuffixAfter(s, i, ph, pm + ps);
    SuffixAfter(s, i + |ph|, pm, ps);
  }

  /** The three groups read back from where their written text starts. */
  lemma ReadWrittenGroups(s: string, i: nat, f: Fields)
    requires i <= |s| && s[i..] == Part(f.hours, 'H') + Part(f.minutes, 'M') + Part(f.seconds, 'S')
    ensures ReadGroups(s, i) == TotalSeconds(f)
  {
    var ph, pm, ps := Part(f.hours, 'H'), Part(f.minutes, 'M'), Part(f.seconds, 'S');
    WrittenParts(s, i, ph, pm, ps);
    var i1 := i + |ph|;
    var i2 := i1 + |pm|;
    assert Part(None, 'H') == "" && Part(None, 'M') == "";
    PartRead(s, i, f.hours, 'H', f.minutes, 'M', f.seconds, 'S');
    PartRead(s, i1, f.minutes, 'M', f.seconds, 'S', None, 'H');
    PartRead(s, i2, f.seconds, 'S', None, 'H', None, 'M');
    ReadGroupsOf(s, i, Group(f.hours, i1), Group(f.minutes, i2), Group(f.seconds, i2 + |ps|));
  }

  /** "PT1M30S" is 90 seconds. */
  lemma ExampleMinutesSeconds()
    ensures ParseDuration("PT1M30S") == 90
  {
    var f := Fields(None, Some(1), Some(30));
    assert NatToDigits(30) == NatToDigits(3) + [DigitChar(0)];
    assert Format(f) == "PT1M30S";
    ParseFormat(f);
  }

  /** "PT2H" is 7200 seconds. */
  lemma ExampleHours()
    ensures ParseDuration("PT2H") == 7200
  {
    var f := Fields(Some(2), None, None);
    assert Format(f) == "PT2H";
    ParseFormat(f);
  }

  /** "PT45S" is 45 seconds. */
  lemma ExampleSeconds()
    ensures ParseDuration("PT45S") == 45
  {
    var f := Fields(None, None, Some(45));
    assert NatToDigits(45) == NatToDigits(4) + [DigitChar(5)];
    assert Format(f) == "PT45S";
    ParseFormat(f);
  }

  /** Malformed text and the day form (no "PT" in it) both degrade to 0. */
  lemma ExamplesWithoutPT()
    ensures ParseDuration("garbage") == 0
    ensures ParseDuration("P1DT2H") == 0
  {
    NoPT("garbage");
    NoPT("P1DT2H");
  }

  lemma NoPT(s: string)
    requires forall k :: 0 <= k < |s| - 1 ==> !(s[k] == 'P' && s[k + 1] == 'T')
    ensures ParseDuration(s) == 0
  {
    forall k | 0 <= k ensures !OccursAt(s, "PT", k) {
      if k < |s| - 1 {
        assert !(s[k] == 'P' && s[k + 1] == 'T');
      }
    }
    assert IndexOfFrom(s, "PT", 0).None?;
  }
}
