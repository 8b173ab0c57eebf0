/** internal/tui/utils/string.go (and its copy in internal/tui/utils.go): the two
    regular-expression clean-ups the browser applies to names. */
module TuiStrings {
  import opened Wrappers
  import opened Text
  import ParsOut

  /** End of the run of ASCII digits (RE2's `\d`) starting at `i`. */
  function DigitRun(s: string, i: nat): (j: nat)
    requires i <= |s|
    ensures i <= j <= |s|
    ensures forall k :: i <= k < j ==> IsAsciiDigit(s[k])
    ensures j < |s| ==> !IsAsciiDigit(s[j])
    decreases |s| - i
  {
    if i < |s| && IsAsciiDigit(s[i]) then DigitRun(s, i + 1) else i
  }

  /** Where the digits of a match starting at `p` must begin: after an optional
      space and an optional '('. */
  function DigitStart(s: string, p: nat): (b: nat)
    requires p <= |s|
    ensures p <= b <= p + 2 && b <= |s|
  {
    var a := if p < |s| && s[p] == ' ' then p + 1 else p;
    if a < |s| && s[a] == '(' then a + 1 else a
  }

  /** The end of the match of ` ?\(?\d+(\.\d+)?%\)?` starting at `p`, if any, as the
      leftmost-first engine finds it. Every optional part is taken when present, and
      no retry with a shorter choice can succeed: giving up the space or the '(' puts a
      non-digit where a digit is needed, giving up digits puts a digit where '.' or '%'
      is needed. */
  function MatchAt(s: string, p: nat): (e: Option<nat>)
    requires p <= |s|
    ensures e.Some? ==> p + 2 <= e.value <= |s| && '%' in s
    ensures e.Some? ==> DigitStart(s, p) < |s| && IsAsciiDigit(s[DigitStart(s, p)])
  {
    var b := DigitStart(s, p);
    var c := DigitRun(s, b);
    if c == b then None
    else
      var f := if c + 1 < |s| && s[c] == '.' then DigitRun(s, c + 1) else c;
      var d := if f > c + 1 && f < |s| && s[f] == '%' then f else c;
      if d < |s| && s[d] == '%' then
        var e := if d + 1 < |s| && s[d + 1] == ')' then d + 2 else d + 1;
        Some(e)
      else None
  }

  /** `ReplaceAllString(s[p..], "")`: scan left to right, deleting each match and
      resuming after it, keeping every rune where no match starts. */
  function RemovePercentFrom(s: string, p: nat): string
    requires p <= |s|
    decreases |s| - p
  {
    if p == |s| then ""
    else match MatchAt(s, p)
      case Some(e) => RemovePercentFrom(s, e)
      case None => [s[p]] + RemovePercentFrom(s, p + 1)
  }

  /** `RemovePercent`. */
  function RemovePercent(s: string): string {
    RemovePercentFrom(s, 0)
  }

  lemma {:induction false} RemovePercentFromWithoutPercent(s: string, p: nat)
    requires p <= |s| && '%' !in s
    ensures RemovePercentFrom(s, p) == s[p..]
    decreases |s| - p
  {
    if p < |s| {
      assert MatchAt(s, p).None?;
      RemovePercentFromWithoutPercent(s, p + 1);
      ConsTail(s, p);
    }
  }

  lemma ConsTail(s: string, p: nat)
    requires p < |s|
    ensures s[p..] == [s[p]] + s[p + 1..]
  {
  }

  /** A name without '%' is unchanged. */
  lemma RemovePercentWithoutPercent(s: string)
    requires '%' !in s
    ensures RemovePercent(s) == s
  {
    RemovePercentFromWithoutPercent(s, 0);
  }

  lemma {:induction false} RemovePercentFromSubsequence(s: string, p: nat)
    requires p <= |s|
    ensures IsSubsequence(RemovePercentFrom(s, p), s[p..])
    decreases |s| - p
  {
    if p < |s| {
      ConsTail(s, p);
      match MatchAt(s, p)
      case Some(e) =>
        RemovePercentFromSubsequence(s, e);
        SubsequenceSkip(RemovePercentFrom(s, e), s, p, e);
      case None =>
        RemovePercentFromSubsequence(s, p + 1);
        SubsequenceCons(s[p], RemovePercentFrom(s, p + 1), s[p + 1..]);
    }
  }

  /** Dropping a slice in front keeps a subsequence. */
  lemma {:induction false} SubsequenceSkip(a: string, s: string, p: nat, e: nat)
    requires p <= e <= |s| && IsSubsequence(a, s[e..])
    ensures IsSubsequence(a, s[p..])
    decreases e - p
  {
    if p < e {
      SubsequenceSkip(a, s, p + 1, e);
      ConsTail(s, p);
      SubsequenceCons(s[p], a, s[p + 1..]);
    }
  }

  /** Only matched text is deleted: the rest keeps its order. */
  lemma RemovePercentSubsequence(s: string)
    ensures IsSubsequence(RemovePercent(s), s)
  {
    RemovePercentFromSubsequence(s, 0);
    assert s[0..] == s;
  }

  predicate NoAsciiDigit(s: string) {
    forall i :: 0 <= i < |s| ==> !IsAsciiDigit(s[i])
  }

  /** Where no match starts, the rune is kept. */
  lemma KeepWithoutMatch(s: string, p: nat)
    requires p < |s| && (DigitStart(s, p) == |s| || !IsAsciiDigit(s[DigitStart(s, p)]))
    ensures RemovePercentFrom(s, p) == [s[p]] + RemovePercentFrom(s, p + 1)
  {
    assert MatchAt(s, p).None?;
  }

  lemma ConsSlice(s: string, p: nat, k: nat, tail: string)
    requires p < k <= |s|
    ensures [s[p]] + (s[p + 1..k] + tail) == s[p..k] + tail
  {
    assert s[p..k] == [s[p]] + s[p + 1..k];
  }

  /** A stretch where no match starts is copied unchanged. */
  lemma {:induction false} RemovePercentFromKept(s: string, k: nat, p: nat)
    requires p <= k <= |s|
    requires forall i :: p <= i < k ==> DigitStart(s, i) < |s| && !IsAsciiDigit(s[DigitStart(s, i)])
    ensures RemovePercentFrom(s, p) == s[p..k] + RemovePercentFrom(s, k)
    decreases k - p
  {
    if p < k {
      KeepWithoutMatch(s, p);
      RemovePercentFromKept(s, k, p + 1);
      ConsSlice(s, p, k, RemovePercentFrom(s, k));
    }
  }

  /** No match starts inside a digit-free prefix `s[..k]` followed by a space, or a
      '(', and then a non-digit: the digits a match needs would lie at most two runes
      past its start. */
  lemma RemovePercentFromName(s: string, k: nat, p: nat)
    requires k + 2 <= |s| && p <= k
    requires forall i :: 0 <= i < k ==> !IsAsciiDigit(s[i])
    requires (s[k] == ' ' || s[k] == '(') && !IsAsciiDigit(s[k + 1])
    ensures RemovePercentFrom(s, p) == s[p..k] + RemovePercentFrom(s, k)
  {
    forall i | p <= i < k
      ensures DigitStart(s, i) < |s| && !IsAsciiDigit(s[DigitStart(s, i)])
    {
      var b := DigitStart(s, i);
      assert b <= k + 1;
    }
    RemovePercentFromKept(s, k, p);
  }

  /** As `RemovePercentFromName`, for a prefix followed by a space and then digits. */
  lemma RemovePercentFromNameBeforeDigits(s: string, k: nat, p: nat)
    requires k + 1 < |s| && p <= k
    requires forall i :: 0 <= i < k ==> !IsAsciiDigit(s[i])
    requires s[k] == ' '
    ensures RemovePercentFrom(s, p) == s[p..k] + RemovePercentFrom(s, k)
  {
    forall i | p <= i < k
      ensures DigitStart(s, i) < |s| && !IsAsciiDigit(s[DigitStart(s, i)])
    {
      var b := DigitStart(s, i);
      assert b <= k;
    }
    RemovePercentFromKept(s, k, p);
  }

  lemma {:induction false} DigitRunOver(s: string, i: nat, d: string)
    requires i + |d| < |s| && s[i..i + |d|] == d
    requires forall k :: 0 <= k < |d| ==> IsAsciiDigit(d[k])
    requires !IsAsciiDigit(s[i + |d|])
    ensures DigitRun(s, i) == i + |d|
    decreases |d|
  {
    if |d| > 0 {
      assert s[i] == d[0];
      assert s[i + 1..i + 1 + |d[1..]|] == d[1..];
      DigitRunOver(s, i + 1, d[1..]);
    }
  }

  /** The percentage tag the data puts after a backdrop or symbol name:
      " (<digits>%)" or " (<digits>.<digits>%)". */
  function Tag(d: string, frac: string): string {
    " (" + d + (if frac == "" then "" else "." + frac) + "%)"
  }

  /** Where the parts of a tag lie once it follows `pre`. */
  lemma TagLayout(pre: string, d: string, frac: string)
    ensures var s, at := pre + Tag(d, frac), |pre|;
      var c := at + 2 + |d|;
      && s[at] == ' ' && s[at + 1] == '(' && s[at + 2..c] == d
      && (frac == "" ==> c + 2 == |s| && s[c] == '%' && s[c + 1] == ')')
      && (frac != "" ==>
            && c + 3 + |frac| == |s| && s[c] == '.' && s[c + 1..c + 1 + |frac|] == frac
            && s[c + 1 + |frac|] == '%' && s[c + 2 + |frac|] == ')')
  {
    var s, at := pre + Tag(d, frac), |pre|;
    var c := at + 2 + |d|;
    if frac == "" {
      assert Tag(d, frac) == " (" + d + "%)";
    } else {
      assert Tag(d, frac) == " (" + d + "." + frac + "%)";
      assert s[c + 1..c + 1 + |frac|] == frac;
    }
    assert s[at + 2..c] == d;
  }

  /** The tag is one whole match. */
  lemma MatchOfTag(pre: string, d: string, frac: string)
    requires IsDigits(d) && (frac == "" || IsDigits(frac))
    ensures MatchAt(pre + Tag(d, frac), |pre|) == Some(|pre + Tag(d, frac)|)
  {
    var s := pre + Tag(d, frac);
    var at := |pre|;
    TagLayout(pre, d, frac);
    var b := at + 2;
    assert DigitStart(s, at) == b;
    var c := b + |d|;
    DigitRunOver(s, b, d);
    if frac != "" {
      DigitRunOver(s, c + 1, frac);
    }
  }

  /** A percentage tag after a digit-free name is removed with its leading space:
      "Red (1.5%)" becomes "Red". */
  lemma RemovePercentStripsTag(name: string, d: string, frac: string)
    requires NoAsciiDigit(name) && IsDigits(d) && (frac == "" || IsDigits(frac))
    ensures RemovePercent(name + Tag(d, frac)) == name
  {
    var s := name + Tag(d, frac);
    assert s[..|name|] == name;
    assert s[|name|] == ' ' && s[|name| + 1] == '(';
    RemovePercentFromName(s, |name|, 0);
    MatchOfTag(name, d, frac);
  }

  /** A bare percentage after a digit-free name goes too: "Stone 12%" becomes "Stone". */
  lemma RemovePercentStripsBarePercent(name: string, d: string)
    requires NoAsciiDigit(name) && IsDigits(d)
    ensures RemovePercent(name + " " + d + "%") == name
  {
    var s := name + " " + d + "%";
    assert s[..|name|] == name;
    assert s[|name|] == ' ';
    RemovePercentFromNameBeforeDigits(s, |name|, 0);
    var b := |name| + 1;
    assert s[b] == d[0] && s[b] != '(';
    assert DigitStart(s, |name|) == b;
    assert s[b..b + |d|] == d;
    assert s[b + |d|] == '%';
    DigitRunOver(s, b, d);
    assert MatchAt(s, |name|) == Some(|s|);
  }

  /** Deleting the matches can create a new one, so a second pass may change more:
      in "5(3%)%" only "(3%)" matches, leaving "5%", which matches whole. */
  lemma RemovePercentNotIdempotent()
    ensures RemovePercent("5(3%)%") == "5%"
    ensures RemovePercent("5%") == ""
  {
    FirstPassLeavesPercent();
    BarePercentMatch();
    assert RemovePercentFrom("5%", 2) == "";
  }

  lemma BarePercentMatch()
    ensures MatchAt("5%", 0) == Some(2)
  {
    assert DigitStart("5%", 0) == 0 && DigitRun("5%", 0) == 1;
  }

  lemma FirstPassLeavesPercent()
    ensures RemovePercent("5(3%)%") == "5%"
  {
    var s := "5(3%)%";
    NestedMatches();
    assert RemovePercentFrom(s, 6) == "";
    assert RemovePercentFrom(s, 5) == "%";
    assert RemovePercentFrom(s, 1) == "%";
  }

  /** In "5(3%)%" a match starts only at the '(' and runs to the ')'. */
  lemma NestedMatches()
    ensures MatchAt("5(3%)%", 0).None?
    ensures MatchAt("5(3%)%", 1) == Some(5)
    ensures MatchAt("5(3%)%", 5).None?
  {
    var s := "5(3%)%";
    assert DigitRun(s, 0) == 1 && s[1] == '(';
    assert DigitStart(s, 1) == 2 && DigitRun(s, 2) == 3 && s[3] == '%' && s[4] == ')';
    assert DigitStart(s, 5) == 5 && !IsAsciiDigit(s[5]);
  }

  /** RE2's `\w`: the ASCII letters, digits and '_'. */
  predicate IsWordChar(c: char) {
    IsAsciiLetter(c) || IsAsciiDigit(c) || c == '_'
  }

  /** `SanitizeGiftName`: deletes every rune outside `\w`. */
  function SanitizeGiftName(name: string): (r: string)
    ensures |r| <= |name|
    ensures forall i :: 0 <= i < |r| ==> IsWordChar(r[i])
  {
    if |name| == 0 then ""
    else
      var rest := SanitizeGiftName(name[1..]);
      if IsWordChar(name[0]) then [name[0]] + rest else rest
  }

  /** It distributes over concatenation, so it is the rune-by-rune filter. */
  lemma {:induction false} SanitizeGiftNameAppend(a: string, b: string)
    ensures SanitizeGiftName(a + b) == SanitizeGiftName(a) + SanitizeGiftName(b)
  {
    if |a| == 0 {
      assert a + b == b;
    } else {
      assert (a + b)[1..] == a[1..] + b;
      SanitizeGiftNameAppend(a[1..], b);
    }
  }

  lemma {:induction false} SanitizeGiftNameSubsequence(name: string)
    ensures IsSubsequence(SanitizeGiftName(name), name)
  {
    if |name| > 0 {
      SanitizeGiftNameSubsequence(name[1..]);
      assert [name[0]] + name[1..] == name;
      SubsequenceCons(name[0], SanitizeGiftName(name[1..]), name[1..]);
    }
  }

  lemma {:induction false} SanitizeGiftNameKeepsWords(name: string)
    requires forall i :: 0 <= i < |name| ==> IsWordChar(name[i])
    ensures SanitizeGiftName(name) == name
  {
    if |name| > 0 {
      assert IsWordChar(name[0]);
      SanitizeGiftNameKeepsWords(name[1..]);
      assert [name[0]] + name[1..] == name;
    }
  }

  lemma SanitizeGiftNameIdempotent(name: string)
    ensures SanitizeGiftName(SanitizeGiftName(name)) == SanitizeGiftName(name)
  {
    SanitizeGiftNameKeepsWords(SanitizeGiftName(name));
  }

  /** The browser's slug and the parser's slug agree on ASCII names without '_'. */
  lemma {:induction false} SlugsAgreeOnAscii(name: string)
    requires forall i :: 0 <= i < |name| ==> IsAscii(name[i]) && name[i] != '_'
    ensures SanitizeGiftName(name) == ParsOut.SanitizeKey(name)
  {
    if |name| > 0 {
      assert IsAscii(name[0]) && name[0] != '_';
      SlugsAgreeOnAscii(name[1..]);
    }
  }

  /** ... and differ both ways otherwise: '_' is kept only by the browser, a
      non-ASCII letter only by the parser, so the browser opens another file. */
  lemma SlugsDiffer()
    ensures SanitizeGiftName("a_b") == "a_b" && ParsOut.SanitizeKey("a_b") == "ab"
    ensures SanitizeGiftName("Caf\U{00E9}") == "Caf" && ParsOut.SanitizeKey("Caf\U{00E9}") == "Caf\U{00E9}"
  {
    SanitizeGiftNameKeepsWords("a_b");
    ParsOut.SanitizeKeyDropsSeparator("a", '_', "b");
    assert "a" + ['_'] + "b" == "a_b";
    assert forall i :: 0 <= i < |"Caf\U{00E9}"| ==> ParsOut.IsLetterOrDigit("Caf\U{00E9}"[i]);
    ParsOut.SanitizeKeyKeepsAlphanumeric("Caf\U{00E9}");
    SanitizeGiftNameAppend("Caf", "\U{00E9}");
    SanitizeGiftNameKeepsWords("Caf");
    assert "Caf" + "\U{00E9}" == "Caf\U{00E9}";
    assert "\U{00E9}"[1..] == "";
  }
}
