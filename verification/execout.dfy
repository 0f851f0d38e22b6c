/**
 Transcripts of a fenced remote command (e2e/internal/execout/execout.go): finding the command's
 output and exit status again among banners, diagnostics and carriage returns.
 */
module ExecOut {
  import opened Wrappers

  const BEGIN: string := "MUSTER_E2E_BEGIN"
  const END: string := "MUSTER_E2E_END"
  const STATUS: string := "MUSTER_E2E_STATUS"
  const MAXINT: int := 0x7FFF_FFFF_FFFF_FFFF

  // ---- Go's string functions, as far as Parse needs them ----

  predicate OccursAt(s: string, pat: string, i: nat) {
    i + |pat| <= |s| && forall k {:trigger pat[k]} :: 0 <= k < |pat| ==> s[i + k] == pat[k]
  }

  /** The first occurrence from `i` on. */
  function Index(s: string, pat: string, i: nat): (r: Option<nat>)
    requires i <= |s|
    ensures r.Some? ==> i <= r.value && OccursAt(s, pat, r.value)
    ensures r.Some? ==> forall j :: i <= j < r.value ==> !OccursAt(s, pat, j)
    ensures r.None? ==> forall j :: i <= j ==> !OccursAt(s, pat, j)
    decreases |s| - i
  {
    if OccursAt(s, pat, i) then Some(i)
    else if i == |s| then None
    else Index(s, pat, i + 1)
  }

  /** The last occurrence before `n`. */
  function LastIndex(s: string, pat: string, n: nat): (r: Option<nat>)
    ensures r.Some? ==> r.value < n && OccursAt(s, pat, r.value) && forall j :: r.value < j < n ==> !OccursAt(s, pat, j)
    ensures r.None? ==> forall j :: 0 <= j < n ==> !OccursAt(s, pat, j)
  {
    if n == 0 then None
    else if OccursAt(s, pat, n - 1) then Some(n - 1)
    else LastIndex(s, pat, n - 1)
  }

  /** strings.ReplaceAll(s, "\r\n", "\n") */
  function ReplaceCRLF(s: string): string {
    if s == "" then ""
    else if |s| >= 2 && s[0] == '\r' && s[1] == '\n' then "\n" + ReplaceCRLF(s[2..])
    else [s[0]] + ReplaceCRLF(s[1..])
  }

  /** strings.ReplaceAll(s, "\r", "") */
  function RemoveCR(s: string): string {
    if s == "" then ""
    else if s[0] == '\r' then RemoveCR(s[1..])
    else [s[0]] + RemoveCR(s[1..])
  }

  predicate IsSpace(c: char) {
    c == ' ' || c == '\t' || c == '\n' || c == '\U{0B}' || c == '\U{0C}' || c == '\r'
  }

  function TrimRight(s: string): string {
    if s != "" && IsSpace(s[|s| - 1]) then TrimRight(s[..|s| - 1]) else s
  }

  function TrimLeft(s: string): string {
    if s != "" && IsSpace(s[0]) then TrimLeft(s[1..]) else s
  }

  function TrimSpace(s: string): string {
    TrimLeft(TrimRight(s))
  }

  predicate IsDigit(c: char) {
    '0' <= c <= '9'
  }

  function LeadingDigits(s: string): string {
    if s == "" || !IsDigit(s[0]) then "" else [s[0]] + LeadingDigits(s[1..])
  }

  function DigitValue(c: char): nat
    requires IsDigit(c)
  {
    c as int - '0' as int
  }

  function ValueOf(digits: string): nat
    requires forall c :: c in digits ==> IsDigit(c)
  {
    if digits == "" then 0
    else
      var last := digits[|digits| - 1];
      assert last in digits;
      ValueOf(digits[..|digits| - 1]) * 10 + DigitValue(last)
  }

  lemma {:induction false} LeadingDigitsAreDigits(s: string)
    ensures forall c :: c in LeadingDigits(s) ==> IsDigit(c)
  {
    if s != "" && IsDigit(s[0]) {
      LeadingDigitsAreDigits(s[1..]);
    }
  }

  function SkipBlanks(s: string): string {
    if s != "" && IsSpace(s[0]) && s[0] != '\n' then SkipBlanks(s[1..]) else s
  }

  /** What fmt.Sscanf's %d reads: blanks, a sign, digits, and a value that fits in int. */
  function ScanInt(s: string): Option<int> {
    var t := SkipBlanks(s);
    var negative := t != "" && t[0] == '-';
    var u := if t != "" && (t[0] == '-' || t[0] == '+') then t[1..] else t;
    var d := LeadingDigits(u);
    LeadingDigitsAreDigits(u);
    if d == "" then None
    else
      var magnitude: int := ValueOf(d);
      var v := if negative then -magnitude else magnitude;
      if -MAXINT - 1 <= v <= MAXINT then Some(v) else None
  }

  // ---- Parse ----

  datatype Transcript = Transcript(body: string, status: int)

  /** The body and status of what lies between the begin line and the end marker. */
  function ParsePayload(payload: string): Option<Transcript> {
    var marker := LastIndex(payload, STATUS + "=", |payload|);
    if marker.None? then None
    else
      var status := ScanInt(payload[marker.value + |STATUS| + 1..]);
      if status.None? then None
      else Some(Transcript(TrimSpace(payload[..marker.value]), status.value))
  }

  /** What lies between them, if both are there. */
  function Payload(out: string): Option<string> {
    var begin := Index(out, BEGIN + "\n", 0);
    if begin.None? then None
    else
      var rest := out[begin.value + |BEGIN| + 1..];
      var end := Index(rest, END, 0);
      if end.None? then None else Some(rest[..end.value])
  }

  function Parse(out: string): Option<Transcript> {
    var payload := Payload(RemoveCR(ReplaceCRLF(out)));
    if payload.None? then None else ParsePayload(payload.value)
  }

  // ---- what the remote shell prints ----

  function Decimal(n: nat): string {
    if n < 10 then ['0' + n as char] else Decimal(n / 10) + ['0' + (n % 10) as char]
  }

  /** The lines Script's echo commands print around the command's own output. */
  function Fenced(body: string, status: nat): string {
    BEGIN + "\n" + (body + "\n" + (STATUS + "=" + Decimal(status) + "\n") + END + "\n")
  }

  // ---- carriage returns do not matter ----

  lemma {:induction false} CRLFThenCR(s: string)
    ensures RemoveCR(ReplaceCRLF(s)) == RemoveCR(s)
    decreases |s|
  {
    if s == "" {
    } else if |s| >= 2 && s[0] == '\r' && s[1] == '\n' {
      CRLFThenCR(s[2..]);
      assert ("\n" + ReplaceCRLF(s[2..]))[1..] == ReplaceCRLF(s[2..]);
      assert s[1..][1..] == s[2..];
    } else {
      CRLFThenCR(s[1..]);
      assert ([s[0]] + ReplaceCRLF(s[1..]))[1..] == ReplaceCRLF(s[1..]);
    }
  }

  /** Parse depends on a transcript only through what is left without its carriage returns: a pty that
      inserts them anywhere changes nothing. */
  lemma CarriageReturnsDoNotMatter(t1: string, t2: string)
    requires RemoveCR(t1) == RemoveCR(t2)
    ensures Parse(t1) == Parse(t2)
  {
    CRLFThenCR(t1);
    CRLFThenCR(t2);
  }

  lemma {:induction false} RemoveCRAppend(a: string, b: string)
    ensures RemoveCR(a + b) == RemoveCR(a) + RemoveCR(b)
  {
    if a == "" {
      assert a + b == b;
    } else {
      assert (a + b)[1..] == a[1..] + b;
      RemoveCRAppend(a[1..], b);
    }
  }

  lemma {:induction false} NothingToRemove(s: string)
    requires '\r' !in s
    ensures RemoveCR(s) == s
  {
    if s != "" {
      NothingToRemove(s[1..]);
    }
  }

  /** What is left has none, ... */
  lemma {:induction false} NoneLeft(s: string)
    ensures '\r' !in RemoveCR(s)
  {
    if s != "" {
      NoneLeft(s[1..]);
    }
  }

  /** ... and a carriage return inserted anywhere changes nothing. */
  lemma InsertedCarriageReturn(a: string, b: string)
    ensures Parse(a + "\r" + b) == Parse(a + b)
  {
    RemoveCRAppend(a + "\r", b);
    RemoveCRAppend(a, "\r");
    RemoveCRAppend(a, b);
    assert RemoveCR("\r") == RemoveCR("\r"[1..]);
    CarriageReturnsDoNotMatter(a + "\r" + b, a + b);
  }

  // ---- trimming ----

  predicate Blank(s: string) {
    forall c :: c in s ==> IsSpace(c)
  }

  lemma {:induction false} TrimRightIs(s: string) returns (b: string)
    ensures s == TrimRight(s) + b && Blank(b)
    ensures TrimRight(s) != "" ==> !IsSpace(TrimRight(s)[|TrimRight(s)| - 1])
  {
    b := "";
    if s != "" && IsSpace(s[|s| - 1]) {
      var b' := TrimRightIs(s[..|s| - 1]);
      b := b' + [s[|s| - 1]];
      assert s == s[..|s| - 1] + [s[|s| - 1]];
    }
  }

  lemma {:induction false} TrimLeftIs(s: string) returns (a: string)
    ensures s == a + TrimLeft(s) && Blank(a)
    ensures TrimLeft(s) != "" ==> !IsSpace(TrimLeft(s)[0])
  {
    a := "";
    if s != "" && IsSpace(s[0]) {
      var a' := TrimLeftIs(s[1..]);
      a := [s[0]] + a';
      assert s == [s[0]] + s[1..];
    }
  }

  /** The trimmed text begins and ends with no blank, and what was cut off around it is blank. */
  lemma TrimSpaceIs(s: string) returns (a: string, b: string)
    ensures s == a + TrimSpace(s) + b && Blank(a) && Blank(b)
    ensures TrimSpace(s) != "" ==> !IsSpace(TrimSpace(s)[0]) && !IsSpace(TrimSpace(s)[|TrimSpace(s)| - 1])
  {
    b := TrimRightIs(s);
    var r := TrimRight(s);
    a := TrimLeftIs(r);
    var t := TrimSpace(s);
    assert t != "" ==> r[|r| - 1] == t[|t| - 1];
  }

  // ---- the fence is found where it was put ----

  lemma Mismatch(s: string, pat: string, i: nat, k: nat)
    requires i + |pat| <= |s| && k < |pat| && s[i + k] != pat[k]
    ensures !OccursAt(s, pat, i)
  {
  }

  lemma FirstIs(s: string, pat: string, q: nat)
    requires OccursAt(s, pat, q) && forall i: nat :: i < q ==> !OccursAt(s, pat, i)
    ensures Index(s, pat, 0) == Some(q)
  {
  }

  /** A line cannot straddle into a copy of itself: its only newline is its last character. */
  lemma LineDoesNotStraddle(pre: string, word: string, rest: string, i: nat)
    requires '\n' !in word && i < |pre| && !OccursAt(pre, word + "\n", i)
    ensures !OccursAt(pre + (word + "\n" + rest), word + "\n", i)
  {
    var line := word + "\n";
    var s := pre + (line + rest);
    if i + |line| <= |pre| {
      var k :| 0 <= k < |line| && pre[i + k] != line[k];
      assert s[i + k] == pre[i + k];
    } else {
      var at := i + |word|;
      assert s[at] == line[at - |pre|] == word[at - |pre|] && word[at - |pre|] in word;
      assert line[|word|] == '\n';
    }
  }

  lemma LineIsFoundFirst(pre: string, word: string, rest: string)
    requires '\n' !in word && forall i: nat :: !OccursAt(pre, word + "\n", i)
    ensures Index(pre + (word + "\n" + rest), word + "\n", 0) == Some(|pre|)
  {
    var line := word + "\n";
    var s := pre + (line + rest);
    assert OccursAt(s, line, |pre|);
    forall i: nat | i < |pre|
      ensures !OccursAt(s, line, i)
    {
      LineDoesNotStraddle(pre, word, rest, i);
    }
    FirstIs(s, line, |pre|);
  }

  /** Text that ends in a newline: a word occurs across its end, or in it, only if it occurs in it. */
  lemma NotAcrossNewline(text: string, word: string, rest: string, i: nat)
    requires text != "" && text[|text| - 1] == '\n' && '\n' !in word && word != "" && i < |text|
    requires !OccursAt(text, word, i)
    ensures !OccursAt(text + rest, word, i)
  {
    var s, end := text + rest, |text| - 1;
    if i + |word| <= |text| {
      var k :| 0 <= k < |word| && text[i + k] != word[k];
      assert s[i + k] == text[i + k];
    } else {
      assert s[i + (end - i)] == '\n' && word[end - i] in word;
    }
  }

  /** Two texts, the first ending in a newline: a word occurs in them only if it occurs in one. */
  lemma NotInBoth(a: string, b: string, word: string)
    requires a != "" && a[|a| - 1] == '\n' && '\n' !in word && word != ""
    requires forall i: nat :: !OccursAt(a, word, i)
    requires forall i: nat :: !OccursAt(b, word, i)
    ensures forall i: nat :: !OccursAt(a + b, word, i)
  {
    forall i: nat
      ensures !OccursAt(a + b, word, i)
    {
      if i < |a| {
        NotAcrossNewline(a, word, b, i);
      } else if i + |word| <= |a + b| {
        assert !OccursAt(b, word, i - |a|);
        var k :| 0 <= k < |word| && b[i - |a| + k] != word[k];
        assert (a + b)[i + k] == b[i - |a| + k];
      }
    }
  }

  lemma NotInLine(body: string, word: string)
    requires '\n' !in word && word != "" && forall i: nat :: !OccursAt(body, word, i)
    ensures forall i: nat :: !OccursAt(body + "\n", word, i)
  {
    var s := body + "\n";
    forall i: nat
      ensures !OccursAt(s, word, i)
    {
      if i + |word| <= |body| {
        assert !OccursAt(body, word, i);
        var k :| 0 <= k < |word| && body[i + k] != word[k];
        assert s[i + k] == body[i + k];
      } else if i + |word| == |s| {
        assert s[i + (|word| - 1)] == '\n' && word[|word| - 1] in word;
      }
    }
  }

  /** A word that occurs neither in a text nor in the line after it is first found behind them. */
  lemma WordIsFoundAfterLines(body: string, line: string, word: string, rest: string)
    requires '\n' !in word && word != "" && line != "" && line[|line| - 1] == '\n'
    requires forall i: nat :: !OccursAt(body, word, i)
    requires forall i: nat :: !OccursAt(line, word, i)
    ensures Index(body + "\n" + line + (word + rest), word, 0) == Some(|body| + 1 + |line|)
  {
    var text := body + "\n" + line;
    var s := text + (word + rest);
    NotInLine(body, word);
    NotInBoth(body + "\n", line, word);
    assert text[|text| - 1] == line[|line| - 1];
    assert OccursAt(s, word, |text|);
    forall i: nat | i < |text|
      ensures !OccursAt(s, word, i)
    {
      NotAcrossNewline(text, word, word + rest, i);
    }
    FirstIs(s, word, |text|);
  }

  /** The status line: its marker at the front, and no other capital M in it. */
  predicate IsStatusLine(line: string) {
    && |line| > |STATUS| + 1 && OccursAt(line, STATUS + "=", 0)
    && line[|line| - 1] == '\n'
    && forall k :: 1 <= k < |line| ==> line[k] != 'M'
  }

  lemma NoEndInStatusLine(line: string, i: nat)
    requires IsStatusLine(line)
    ensures !OccursAt(line, END, i)
  {
    if i + |END| <= |line| {
      if i == 0 {
        assert (STATUS + "=")[11] == line[0 + 11];
        Mismatch(line, END, i, 11);
      } else {
        Mismatch(line, END, i, 0);
      }
    }
  }

  lemma MarkerIsFoundLast(body: string, line: string)
    requires IsStatusLine(line)
    ensures var payload := body + "\n" + line;
            LastIndex(payload, STATUS + "=", |payload|) == Some(|body| + 1)
  {
    var payload, mark, m := body + "\n" + line, STATUS + "=", |body| + 1;
    assert OccursAt(payload, mark, m) by {
      forall k | 0 <= k < |mark|
        ensures payload[m + k] == mark[k]
      {
        assert payload[m + k] == line[0 + k];
      }
    }
    forall i: nat | m < i
      ensures !OccursAt(payload, mark, i)
    {
      if i + |mark| <= |payload| {
        assert payload[i] == line[i - m];
        Mismatch(payload, mark, i, 0);
      }
    }
  }

  // ---- the status and the body survive ----

  lemma {:induction false} DecimalRoundTrip(n: nat)
    ensures Decimal(n) != "" && (forall c :: c in Decimal(n) ==> IsDigit(c)) && ValueOf(Decimal(n)) == n
  {
    var d := Decimal(n);
    if n < 10 {
      assert d[..|d| - 1] == "";
    } else {
      DecimalRoundTrip(n / 10);
      assert d[..|d| - 1] == Decimal(n / 10);
    }
  }

  /** Decimal notation: the digits of the tens, and then that of the ones. */
  lemma DecimalNotation(tens: nat, ones: nat)
    requires ones < 10
    ensures Decimal(10 * tens + ones) == (if tens == 0 then "" else Decimal(tens)) + ["0123456789"[ones]]
  {
    assert (10 * tens + ones) / 10 == tens && (10 * tens + ones) % 10 == ones;
    assert "0123456789"[ones] == '0' + ones as char;
  }

  lemma {:induction false} LeadingDigitsOf(d: string, rest: string)
    requires forall c :: c in d ==> IsDigit(c)
    requires rest == "" || !IsDigit(rest[0])
    ensures LeadingDigits(d + rest) == d
  {
    if d == "" {
      assert d + rest == rest;
    } else {
      assert (d + rest)[1..] == d[1..] + rest;
      LeadingDigitsOf(d[1..], rest);
    }
  }

  lemma StatusIsScanned(status: nat)
    requires status <= MAXINT
    ensures ScanInt(Decimal(status) + "\n") == Some(status)
  {
    DecimalRoundTrip(status);
    var s := Decimal(status) + "\n";
    assert s[0] in Decimal(status);
    LeadingDigitsOf(Decimal(status), "\n");
  }

  lemma TrimSpaceNewline(s: string)
    ensures TrimSpace(s + "\n") == TrimSpace(s)
  {
    assert (s + "\n")[..|s|] == s;
  }

  lemma StatusLine(status: nat)
    ensures IsStatusLine(STATUS + "=" + Decimal(status) + "\n")
    ensures '\r' !in STATUS + "=" + Decimal(status) + "\n"
  {
    DecimalRoundTrip(status);
    var mark, d := STATUS + "=", Decimal(status);
    var line := mark + d + "\n";
    forall k | 0 <= k < |line|
      ensures (k >= 1 ==> line[k] != 'M') && line[k] != '\r'
    {
      if k < |mark| {
        assert line[k] == mark[k];
      } else if k < |mark| + |d| {
        assert line[k] == d[k - |mark|] && line[k] in d;
      }
    }
  }

  lemma FoundInPayload(body: string, line: string, status: nat)
    requires IsStatusLine(line) && line == STATUS + "=" + Decimal(status) + "\n" && status <= MAXINT
    ensures var payload := body + "\n" + line;
            var m := LastIndex(payload, STATUS + "=", |payload|);
            && m == Some(|body| + 1)
            && ScanInt(payload[|body| + 1 + |STATUS| + 1..]) == Some(status)
            && TrimSpace(payload[..|body| + 1]) == TrimSpace(body)
  {
    var payload := body + "\n" + line;
    MarkerIsFoundLast(body, line);
    assert payload[|body| + 1 + |STATUS| + 1..] == Decimal(status) + "\n";
    StatusIsScanned(status);
    assert payload[..|body| + 1] == body + "\n";
    TrimSpaceNewline(body);
  }

  /** What follows the begin line, taken apart by Parse. */
  lemma FoundAfterBegin(body: string, line: string, rest: string)
    requires IsStatusLine(line) && forall i: nat :: !OccursAt(body, END, i)
    ensures var after := body + "\n" + line + (END + rest);
            var end := Index(after, END, 0);
            end.Some? && after[..end.value] == body + "\n" + line
  {
    forall i: nat
      ensures !OccursAt(line, END, i)
    {
      NoEndInStatusLine(line, i);
    }
    WordIsFoundAfterLines(body, line, END, rest);
  }

  /** The transcript without its carriage returns. */
  lemma ParsesCleanTranscript(o: string, pre: string, body: string, status: nat, rest: string)
    requires RemoveCR(o) == pre + Fenced(body, status) + rest
    requires forall i: nat :: !OccursAt(pre, BEGIN + "\n", i)
    requires forall i: nat :: !OccursAt(body, END, i)
    requires status <= MAXINT
    ensures Parse(o) == Some(Transcript(TrimSpace(body), status))
  {
    CRLFThenCR(o);
    var line := STATUS + "=" + Decimal(status) + "\n";
    StatusLine(status);
    var after := body + "\n" + line + (END + ("\n" + rest));
    Refence(pre, body, line, rest);
    LineIsFoundFirst(pre, BEGIN, after);
    assert (pre + (BEGIN + "\n" + after))[|pre| + |BEGIN| + 1..] == after;
    FoundAfterBegin(body, line, "\n" + rest);
    FoundInPayload(body, line, status);
    assert Payload(RemoveCR(o)) == Some(body + "\n" + line);
  }

  lemma Refence(pre: string, body: string, line: string, rest: string)
    ensures pre + (BEGIN + "\n" + (body + "\n" + line + END + "\n")) + rest
            == pre + (BEGIN + "\n" + (body + "\n" + line + (END + ("\n" + rest))))
  {
  }

  /** The round trip: whatever precedes and follows the fence, and whatever the command printed short
      of the end marker (status markers included), Parse returns its output, trimmed and without
      carriage returns, and its exit status. */
  lemma TranscriptRoundTrip(pre: string, body: string, status: nat, rest: string)
    requires forall i: nat :: !OccursAt(RemoveCR(pre), BEGIN + "\n", i)
    requires forall i: nat :: !OccursAt(RemoveCR(body), END, i)
    requires status <= MAXINT
    ensures Parse(pre + Fenced(body, status) + rest) == Some(Transcript(TrimSpace(RemoveCR(body)), status))
  {
    var line := STATUS + "=" + Decimal(status) + "\n";
    StatusLine(status);
    var t := pre + Fenced(body, status) + rest;
    RemoveCRAppend(pre + Fenced(body, status), rest);
    RemoveCRAppend(pre, Fenced(body, status));
    FencedWithoutCR(body, status);
    ParsesCleanTranscript(t, RemoveCR(pre), RemoveCR(body), status, RemoveCR(rest));
  }

  lemma FencedWithoutCR(body: string, status: nat)
    ensures RemoveCR(Fenced(body, status)) == Fenced(RemoveCR(body), status)
  {
    var line := STATUS + "=" + Decimal(status) + "\n";
    StatusLine(status);
    NothingToRemove(BEGIN + "\n");
    NothingToRemove(line);
    NothingToRemove(END);
    NothingToRemove("\n");
    RemoveCRAppend(BEGIN + "\n", body + "\n" + line + END + "\n");
    RemoveCRAppend(body + "\n" + line + END, "\n");
    RemoveCRAppend(body + "\n" + line, END);
    RemoveCRAppend(body + "\n", line);
    RemoveCRAppend(body, "\n");
  }
}
