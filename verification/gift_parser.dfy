/** internal/parser/gift_parser.go: the quantity parser and the retry control of the
    page fetcher. HTTP and HTML parsing are oracles: each attempt's outcome is given. */
module GiftParser {
  import opened Wrappers
  import opened Text

  /** What the HTML extraction reads off a gift page: the "Quantity" cell
      (`ExtractGiftField(doc, "Quantity")`, "Unknown" when absent), the page's whole
      inner text, and the Model / Backdrop / Symbol cells of `ParseGiftInfo`. */
  datatype Page = Page(quantityField: string, text: string, model: string, backdrop: string, symbol: string)

  /** The outcome of one `http.Get` plus `htmlquery.Parse`. */
  datatype Attempt = RequestFailed | ParseFailed | Parsed(page: Page)

  const NoBreakSpace: char := '\U{00A0}'

  /** Deletes every no-break space and ASCII space. */
  function RemoveSpaces(s: string): (r: string)
    ensures NoBreakSpace !in r && ' ' !in r
  {
    if |s| == 0 then ""
    else
      var rest := RemoveSpaces(s[1..]);
      if s[0] == NoBreakSpace || s[0] == ' ' then rest else [s[0]] + rest
  }

  lemma {:induction false} RemoveSpacesKeepsOthers(s: string)
    requires NoBreakSpace !in s && ' ' !in s
    ensures RemoveSpaces(s) == s
  {
    if |s| > 0 {
      assert NoBreakSpace !in s[1..] && ' ' !in s[1..] by { assert forall c :: c in s[1..] ==> c in s; }
      RemoveSpacesKeepsOthers(s[1..]);
      assert [s[0]] + s[1..] == s;
    }
  }

  lemma {:induction false} RemoveSpacesAppend(a: string, b: string)
    ensures RemoveSpaces(a + b) == RemoveSpaces(a) + RemoveSpaces(b)
  {
    if |a| == 0 {
      assert a + b == b;
    } else {
      assert (a + b)[1..] == a[1..] + b;
      RemoveSpacesAppend(a[1..], b);
    }
  }

  /** `CleanQuantity`: the text before the first '/', without spaces, through Atoi;
      a syntax error gives 0 (the error is discarded). */
  function CleanQuantity(q: string): int {
    Atoi(RemoveSpaces(Split(q, '/')[0])).GetOr(0)
  }

  /** A quantity string without '/' is parsed whole. */
  lemma CleanQuantityWithoutSlash(q: string)
    requires '/' !in q
    ensures CleanQuantity(q) == Atoi(RemoveSpaces(q)).GetOr(0)
  {
    SplitWithoutSeparator(q, '/');
  }

  /** Only the numerator before the first '/' counts. */
  lemma CleanQuantityNumerator(numerator: string, total: string)
    requires '/' !in numerator
    ensures CleanQuantity(numerator + "/" + total) == CleanQuantity(numerator)
  {
    SplitHead(numerator, '/', total);
    SplitWithoutSeparator(numerator, '/');
  }

  /** A decimal digit string, optionally followed by "/...", gives its value. */
  lemma CleanQuantityOfDigits(d: string, total: string)
    requires IsDigits(d)
    ensures CleanQuantity(d) == DigitsValue(d)
    ensures CleanQuantity(d + "/" + total) == DigitsValue(d)
  {
    assert '/' !in d by {
      forall i | 0 <= i < |d| ensures d[i] != '/' { assert IsAsciiDigit(d[i]); }
    }
    assert NoBreakSpace !in d && ' ' !in d by {
      forall i | 0 <= i < |d| ensures d[i] != NoBreakSpace && d[i] != ' ' { assert IsAsciiDigit(d[i]); }
    }
    RemoveSpacesKeepsOthers(d);
    CleanQuantityWithoutSlash(d);
    CleanQuantityNumerator(d, total);
  }

  lemma {:induction false} DigitsAreNotSeparators(d: string)
    requires forall i :: 0 <= i < |d| ==> IsAsciiDigit(d[i])
    ensures '/' !in d && ' ' !in d && NoBreakSpace !in d
  {
    forall i | 0 <= i < |d| ensures d[i] != '/' && d[i] != ' ' && d[i] != NoBreakSpace {
      assert IsAsciiDigit(d[i]);
    }
  }

  lemma {:induction false} RemoveSpacesGrouped(high: string, sp: char, low: string)
    requires NoBreakSpace !in high && ' ' !in high && NoBreakSpace !in low && ' ' !in low
    requires sp == ' ' || sp == NoBreakSpace
    ensures RemoveSpaces(high + [sp] + low) == high + low
  {
    RemoveSpacesAppend(high + [sp], low);
    RemoveSpacesAppend(high, [sp]);
    RemoveSpacesKeepsOthers(high);
    RemoveSpacesKeepsOthers(low);
    assert RemoveSpaces([sp]) == "" by { assert [sp][1..] == ""; }
  }

  lemma {:induction false} DigitsConcat(high: string, low: string)
    requires IsDigits(high) && IsDigits(low)
    ensures IsDigits(high + low)
  {
    forall i | 0 <= i < |high + low| ensures IsAsciiDigit((high + low)[i]) {
      if i < |high| { assert (high + low)[i] == high[i]; } else { assert (high + low)[i] == low[i - |high|]; }
    }
  }

  /** Digit groups separated by an ASCII or a no-break space parse as one number. */
  lemma CleanQuantityGrouped(high: string, sp: char, low: string, total: string)
    requires IsDigits(high) && IsDigits(low)
    requires sp == ' ' || sp == NoBreakSpace
    ensures IsDigits(high + low)
    ensures CleanQuantity(high + [sp] + low + "/" + total) == DigitsValue(high + low)
  {
    var num := high + [sp] + low;
    DigitsAreNotSeparators(high);
    DigitsAreNotSeparators(low);
    assert '/' !in num;
    CleanQuantityNumerator(num, total);
    CleanQuantityWithoutSlash(num);
    RemoveSpacesGrouped(high, sp, low);
    DigitsConcat(high, low);
  }

  lemma Value1234()
    ensures DigitsValue("1234") == 1234
  {
    assert "1234"[..3] == "123";
    assert "123"[..2] == "12";
    assert "12"[..1] == "1";
    assert "1"[..0] == "";
  }

  /** Both the ASCII space and the no-break space are deleted before parsing. */
  lemma CleanQuantityThousandsSpaces()
    ensures CleanQuantity("1 234/5000") == 1234
    ensures CleanQuantity("1\U{00A0}234/5000") == 1234
  {
    assert IsDigits("1") && IsDigits("234");
    CleanQuantityGrouped("1", ' ', "234", "5000");
    CleanQuantityGrouped("1", NoBreakSpace, "234", "5000");
    assert "1" + [' '] + "234" + "/" + "5000" == "1 234/5000";
    assert "1" + [NoBreakSpace] + "234" + "/" + "5000" == "1\U{00A0}234/5000";
    assert "1" + "234" == "1234";
    Value1234();
  }

  lemma {:induction false} CleanQuantityOfNonInteger(s: string)
    requires '/' !in s && NoBreakSpace !in s && ' ' !in s
    requires |s| > 1 && IsAsciiDigit(s[0]) && !IsAsciiDigit(s[1])
    ensures CleanQuantity(s) == 0
  {
    CleanQuantityWithoutSlash(s);
    RemoveSpacesKeepsOthers(s);
  }

  /** Nothing but spaces is stripped: a thousands comma makes the text a non-integer. */
  lemma CleanQuantityRejectsComma()
    ensures CleanQuantity("1,234/5000") == 0
  {
    assert "1,234" + "/" + "5000" == "1,234/5000";
    CleanQuantityNumerator("1,234", "5000");
    CleanQuantityOfNonInteger("1,234");
  }

  /** The extractor's "Unknown" and the empty string parse to 0. */
  lemma CleanQuantityRejectsWords()
    ensures CleanQuantity("Unknown") == 0
    ensures CleanQuantity("") == 0
  {
    LettersAreNotSeparators("Unknown");
    CleanQuantityWithoutSlash("Unknown");
    RemoveSpacesKeepsOthers("Unknown");
    assert !IsDigits("Unknown") && !IsDigits("Unknown"[1..]);
    assert CleanQuantity("") == Atoi("").GetOr(0);
  }

  lemma LettersAreNotSeparators(w: string)
    requires forall i :: 0 <= i < |w| ==> IsAsciiLetter(w[i])
    ensures '/' !in w && ' ' !in w && NoBreakSpace !in w
  {
  }

  /** Atoi's optional sign is accepted. */
  lemma CleanQuantityNegative()
    ensures CleanQuantity("-5") == -5
  {
    SplitWithoutSeparator("-5", '/');
    RemoveSpacesKeepsOthers("-5");
    assert "-5"[1..] == "5";
    assert "5"[..0] == "";
  }

  /** The index of the first attempt that produced a parsed document. */
  function FirstParsed(outcomes: seq<Attempt>): (r: Option<nat>)
    ensures r.Some? ==> r.value < |outcomes| && outcomes[r.value].Parsed?
    ensures r.Some? ==> forall j :: 0 <= j < r.value ==> !outcomes[j].Parsed?
    ensures r.None? ==> forall j :: 0 <= j < |outcomes| ==> !outcomes[j].Parsed?
  {
    if |outcomes| == 0 then None
    else if outcomes[0].Parsed? then Some(0)
    else match FirstParsed(outcomes[1..])
      case None => None
      case Some(i) => Some(i + 1)
  }

  /** How many attempts the loop `for i := 0; i < attempts; i++` may make. */
  function Budget(attempts: int): nat {
    if attempts < 0 then 0 else attempts
  }

  /** `FetchHTML` as written. The `resp, err :=` inside the loop declares a new `err`,
      so the function's own `err` is never assigned: when no attempt parses, the
      result is no document and no error. */
  method FetchHTML(attempts: int, outcomes: seq<Attempt>)
    returns (doc: Option<Page>, err: bool, requests: nat, sleeps: nat)
    requires attempts <= |outcomes|
    ensures var first := FirstParsed(outcomes[..Budget(attempts)]);
      && doc == (if first.Some? then Some(outcomes[first.value].page) else None)
      && requests == (if first.Some? then first.value + 1 else Budget(attempts))
    ensures sleeps == if doc.Some? then requests - 1 else requests
    ensures !err
  {
    doc, err, requests, sleeps := None, false, 0, 0;
    var i := 0;
    while i < attempts
      invariant 0 <= i <= Budget(attempts)
      invariant requests == i && sleeps == i
      invariant FirstParsed(outcomes[..i]).None?
    {
      assert outcomes[..i + 1] == outcomes[..i] + [outcomes[i]];
      requests := requests + 1;
      if outcomes[i].Parsed? {
        doc := Some(outcomes[i].page);
        assert outcomes[..Budget(attempts)][..i] == outcomes[..i];
        FirstParsedAfterFailures(outcomes[..Budget(attempts)], i);
        return;
      }
      FirstParsedExtend(outcomes[..i], outcomes[i]);
      sleeps := sleeps + 1;
      i := i + 1;
    }
    assert outcomes[..i] == outcomes[..Budget(attempts)];
  }

  /** `FetchHTML` as evidently intended: the last attempt's failure is reported. */
  method FetchHTMLReportingFailure(attempts: int, outcomes: seq<Attempt>)
    returns (doc: Option<Page>, err: bool, requests: nat, sleeps: nat)
    requires attempts <= |outcomes|
    ensures var first := FirstParsed(outcomes[..Budget(attempts)]);
      && doc == (if first.Some? then Some(outcomes[first.value].page) else None)
      && requests == (if first.Some? then first.value + 1 else Budget(attempts))
    ensures sleeps == if doc.Some? then requests - 1 else requests
    ensures err <==> doc.None?
  {
    doc, err, requests, sleeps := None, false, 0, 0;
    var i := 0;
    while i < attempts
      invariant 0 <= i <= Budget(attempts)
      invariant requests == i && sleeps == i
      invariant FirstParsed(outcomes[..i]).None?
    {
      assert outcomes[..i + 1] == outcomes[..i] + [outcomes[i]];
      requests := requests + 1;
      if outcomes[i].Parsed? {
        doc := Some(outcomes[i].page);
        assert outcomes[..Budget(attempts)][..i] == outcomes[..i];
        FirstParsedAfterFailures(outcomes[..Budget(attempts)], i);
        return;
      }
      FirstParsedExtend(outcomes[..i], outcomes[i]);
      sleeps := sleeps + 1;
      i := i + 1;
    }
    assert outcomes[..i] == outcomes[..Budget(attempts)];
    err := true;
  }

  lemma {:induction false} FirstParsedExtend(prefix: seq<Attempt>, next: Attempt)
    requires FirstParsed(prefix).None? && !next.Parsed?
    ensures FirstParsed(prefix + [next]).None?
  {
    var s := prefix + [next];
    forall j | 0 <= j < |s| ensures !s[j].Parsed? {
      if j < |prefix| { assert s[j] == prefix[j]; }
    }
  }

  lemma {:induction false} FirstParsedAfterFailures(s: seq<Attempt>, i: nat)
    requires i < |s| && s[i].Parsed?
    requires FirstParsed(s[..i]).None?
    ensures FirstParsed(s) == Some(i)
  {
    forall j | 0 <= j < i ensures !s[j].Parsed? {
      assert s[..i][j] == s[j];
    }
  }

  /** Three failed attempts leave `FetchHTML` with no document and no error. */
  method ExhaustedRetriesReportNoError() returns (doc: Option<Page>, err: bool)
    ensures doc.None? && !err
  {
    var requests, sleeps;
    doc, err, requests, sleeps := FetchHTML(3, [RequestFailed, ParseFailed, RequestFailed]);
    assert [RequestFailed, ParseFailed, RequestFailed][..Budget(3)] == [RequestFailed, ParseFailed, RequestFailed];
  }
}
