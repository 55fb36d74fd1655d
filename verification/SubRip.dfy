/**
 SubRip text as the pysrt library writes and reads it: numbered blocks, a time line, text lines and
 a blank line. The reader is modelled in its strict mode, where the first malformed block is an error.
 */
module SubRip {
  import opened Prelude
  import opened Whitespace

  /** One subtitle; times are in milliseconds. */
  datatype Cue = Cue(start: int, end: int, text: string)

  // ---------------------------------------------------------------- characters

  const LF: string := "\n"
  const ARROW: string := "-->"

  predicate IsDigit(c: char) { '0' <= c <= '9' }

  predicate IsTimeSeparator(c: char) { c == ':' || c == '.' || c == ',' }

  predicate NoBreak(s: string) { forall i :: 0 <= i < |s| ==> !IsBreak(s[i]) }

  predicate AllDigits(s: string) { forall i :: 0 <= i < |s| ==> IsDigit(s[i]) }

  /** Text that a SubRip file can carry unchanged: its only breaks are newlines, none of them in front, and no line ends
      in white space or is empty. */
  predicate Lined(s: string) {
    && (forall i :: 0 <= i < |s| && IsBreak(s[i]) ==> s[i] == '\n' && i > 0 && !IsSpace(s[i - 1]))
    && (s == "" || !IsSpace(s[|s| - 1]))
  }

  /** Such a text of at most one line. */
  predicate OneLine(s: string) {
    NoBreak(s) && (s == "" || !IsSpace(s[|s| - 1]))
  }

  // ---------------------------------------------------------------- numbers

  function Digit(d: nat): (c: char)
    requires d < 10
    ensures IsDigit(c) && c as int == '0' as int + d
  {
    (('0' as int) + d) as char
  }

  function Decimal(n: nat): (s: string)
    ensures s != "" && AllDigits(s)
  {
    if n < 10 then [Digit(n)] else Decimal(n / 10) + [Digit(n % 10)]
  }

  /** `n` in decimal with zeros on the left up to `width` characters. */
  function Padded(n: nat, width: nat): (s: string)
    ensures s != "" && AllDigits(s)
  {
    Zeros(width - |Decimal(n)|) + Decimal(n)
  }

  function Zeros(n: int): (s: string)
    ensures AllDigits(s)
  {
    if n <= 0 then "" else ['0'] + Zeros(n - 1)
  }

  /** The number that the leading digits of `s` spell, with `acc` standing before them; 0 when there are none. */
  function LeadingNumber(s: string, acc: nat): nat {
    if s == "" || !IsDigit(s[0]) then acc
    else LeadingNumber(s[1..], 10 * acc + (s[0] as int - '0' as int))
  }

  lemma {:induction false} LeadingNumberAppend(s: string, d: char, acc: nat)
    requires AllDigits(s) && IsDigit(d)
    ensures LeadingNumber(s + [d], acc) == 10 * LeadingNumber(s, acc) + (d as int - '0' as int)
  {
    if s == "" {
      assert s + [d] == [d];
      assert LeadingNumber([d][1..], 10 * acc + (d as int - '0' as int)) == 10 * acc + (d as int - '0' as int);
    } else {
      assert (s + [d])[1..] == s[1..] + [d];
      LeadingNumberAppend(s[1..], d, 10 * acc + (s[0] as int - '0' as int));
    }
  }

  lemma {:induction false} DecimalReads(n: nat)
    ensures LeadingNumber(Decimal(n), 0) == n
  {
    if n < 10 {
      assert LeadingNumber([Digit(n)][1..], n) == n;
    } else {
      DecimalReads(n / 10);
      LeadingNumberAppend(Decimal(n / 10), Digit(n % 10), 0);
    }
  }

  lemma {:induction false} ZerosRead(n: int, s: string)
    ensures LeadingNumber(Zeros(n) + s, 0) == LeadingNumber(s, 0)
  {
    if n <= 0 {
      assert Zeros(n) + s == s;
    } else {
      assert (Zeros(n) + s)[1..] == Zeros(n - 1) + s;
      ZerosRead(n - 1, s);
    }
  }

  lemma PaddedReads(n: nat, width: nat)
    ensures LeadingNumber(Padded(n, width), 0) == n
  {
    ZerosRead(width - |Decimal(n)|, Decimal(n));
    DecimalReads(n);
  }

  /** Digits, with single underscores allowed between them. */
  predicate IsNumeral(s: string) {
    && s != "" && IsDigit(s[0])
    && (|s| == 1 || IsNumeral(if s[1] == '_' then s[2..] else s[1..]))
  }

  function NoUnderscores(s: string): string {
    if s == "" then "" else (if s[0] == '_' then "" else [s[0]]) + NoUnderscores(s[1..])
  }

  /** One field of a time: an integer with an optional sign if it is one, otherwise its leading digits, otherwise 0. */
  function ReadNumber(field: string): int {
    var t := Strip(field);
    var digits := if t != "" && t[0] in "+-" then t[1..] else t;
    if IsNumeral(digits) then
      var n: int := LeadingNumber(NoUnderscores(digits), 0);
      if t[0] == '-' then -n else n
    else LeadingNumber(field, 0)
  }

  lemma {:induction false} DigitsAreNumeral(s: string)
    requires AllDigits(s) && s != ""
    ensures IsNumeral(s) && NoUnderscores(s) == s
  {
    if |s| == 1 {
      assert NoUnderscores(s[1..]) == "";
    } else {
      DigitsAreNumeral(s[1..]);
    }
  }

  lemma PaddedIsRead(n: nat, width: nat)
    ensures ReadNumber(Padded(n, width)) == n
  {
    var s := Padded(n, width);
    PaddedReads(n, width);
    DigitsAreNumeral(s);
    StripTrims(s);
    assert IsDigit(s[0]) && !IsSpace(s[0]) && !IsSpace(s[|s| - 1]);
  }

  // ---------------------------------------------------------------- times

  /** hh:mm:ss,mmm; a time before zero is written as zero. */
  function TimeText(t: int): (s: string) {
    var u := if t < 0 then 0 else t;
    Joined(Padded(u / 3600000, 2), Padded(u / 60000 % 60, 2), Padded(u / 1000 % 60, 2), Padded(u % 1000, 3))
  }

  /** The pieces of `s` between time separators. */
  function TimeFields(s: string): (r: seq<string>)
    ensures r != []
  {
    if s == "" then [""]
    else
      var rest := TimeFields(s[1..]);
      if IsTimeSeparator(s[0]) then [""] + rest else [[s[0]] + rest[0]] + rest[1..]
  }

  /** An absent time counts as zero; otherwise there must be four fields. The result is below zero when a field is. */
  function ReadTime(s: string): Option<int> {
    if s == "" then Some(0)
    else
      var f := TimeFields(s);
      if |f| != 4 then None
      else Some(ReadNumber(f[0]) * 3600000 + ReadNumber(f[1]) * 60000 + ReadNumber(f[2]) * 1000 + ReadNumber(f[3]))
  }

  predicate NoSeparator(s: string) { forall i :: 0 <= i < |s| ==> !IsTimeSeparator(s[i]) }

  lemma {:induction false} TimeFieldsSplit(a: string, sep: char, rest: string)
    requires NoSeparator(a) && IsTimeSeparator(sep)
    ensures TimeFields(a + [sep] + rest) == [a] + TimeFields(rest)
  {
    if a == "" {
      assert a + [sep] + rest == [sep] + rest;
      assert ([sep] + rest)[1..] == rest;
    } else {
      assert (a + [sep] + rest)[1..] == a[1..] + [sep] + rest;
      TimeFieldsSplit(a[1..], sep, rest);
      assert [a[0]] + a[1..] == a;
    }
  }

  lemma {:induction false} TimeFieldsLast(a: string)
    requires NoSeparator(a)
    ensures TimeFields(a) == [a]
  {
    if a == "" {
    } else {
      TimeFieldsLast(a[1..]);
      assert [a[0]] + a[1..] == a;
    }
  }

  /** Four fields joined by the separators of a written time. */
  function Joined(h: string, m: string, s: string, ms: string): string {
    h + ":" + (m + ":" + (s + "," + ms))
  }

  lemma FieldsOfJoined(h: string, m: string, s: string, ms: string)
    requires NoSeparator(h) && NoSeparator(m) && NoSeparator(s) && NoSeparator(ms)
    ensures TimeFields(Joined(h, m, s, ms)) == [h, m, s, ms]
  {
    TimeFieldsLast(ms);
    TimeFieldsSplit(s, ',', ms);
    TimeFieldsSplit(m, ':', s + "," + ms);
    TimeFieldsSplit(h, ':', m + ":" + (s + "," + ms));
  }

  lemma ReadJoined(h: string, m: string, s: string, ms: string)
    requires NoSeparator(h) && NoSeparator(m) && NoSeparator(s) && NoSeparator(ms)
    ensures ReadTime(Joined(h, m, s, ms))
         == Some(ReadNumber(h) * 3600000 + ReadNumber(m) * 60000 + ReadNumber(s) * 1000 + ReadNumber(ms))
  {
    FieldsOfJoined(h, m, s, ms);
    assert |Joined(h, m, s, ms)| >= 1;
  }

  lemma TimeParts(t: nat)
    ensures t == t / 3600000 * 3600000 + t / 60000 % 60 * 60000 + t / 1000 % 60 * 1000 + t % 1000
  {
    var s := t / 1000;
    assert t / 60000 == s / 60;
    assert t / 3600000 == s / 3600;
    assert s / 3600 == (s / 60) / 60;
  }

  lemma PaddedIsField(n: nat, width: nat)
    ensures NoSeparator(Padded(n, width)) && ReadNumber(Padded(n, width)) == n
  {
    PaddedIsRead(n, width);
  }

  lemma ReadPadded(h: nat, m: nat, s: nat, ms: nat)
    ensures ReadTime(Joined(Padded(h, 2), Padded(m, 2), Padded(s, 2), Padded(ms, 3)))
         == Some(h * 3600000 + m * 60000 + s * 1000 + ms)
  {
    hide *;
    PaddedIsField(h, 2);
    PaddedIsField(m, 2);
    PaddedIsField(s, 2);
    PaddedIsField(ms, 3);
    ReadJoined(Padded(h, 2), Padded(m, 2), Padded(s, 2), Padded(ms, 3));
  }

  /** Splitting a time into hours, minutes, seconds and milliseconds and reading it back loses nothing. */
  lemma TimeRoundTrip(t: nat)
    ensures ReadTime(TimeText(t)) == Some(t)
  {
    hide ReadTime, Padded, Joined;
    ReadPadded(t / 3600000, t / 60000 % 60, t / 1000 % 60, t % 1000);
    TimeParts(t);
  }

  lemma TwoDigits(n: nat)
    requires n < 100
    ensures Padded(n, 2) == [Digit(n / 10), Digit(n % 10)]
  {
    assert Zeros(1) == "0" && Zeros(0) == "";
    if n >= 10 {
      assert Decimal(n) == Decimal(n / 10) + [Digit(n % 10)];
    }
  }

  lemma ThreeDigits(n: nat)
    requires n < 1000
    ensures Padded(n, 3) == [Digit(n / 100), Digit(n / 10 % 10), Digit(n % 10)]
  {
    assert Zeros(2) == "0" + Zeros(1) && Zeros(1) == "0" + Zeros(0) && Zeros(0) == "";
    if n >= 100 {
      assert Decimal(n) == Decimal(n / 10) + [Digit(n % 10)];
      assert Decimal(n / 10) == Decimal(n / 100) + [Digit(n / 10 % 10)];
    } else if n >= 10 {
      assert Decimal(n) == Decimal(n / 10) + [Digit(n % 10)];
    }
  }

  /** The text of a time below a hundred hours: hh:mm:ss,mmm. */
  lemma TimeTextShape(h: nat, m: nat, s: nat, ms: nat)
    requires h < 100 && m < 60 && s < 60 && ms < 1000
    ensures TimeText(h * 3600000 + m * 60000 + s * 1000 + ms)
         == [Digit(h / 10), Digit(h % 10), ':', Digit(m / 10), Digit(m % 10), ':', Digit(s / 10), Digit(s % 10), ',',
             Digit(ms / 100), Digit(ms / 10 % 10), Digit(ms % 10)]
  {
    var t := h * 3600000 + m * 60000 + s * 1000 + ms;
    TimeDivides(h, m, s, ms);
    hide Padded, Digit;
    TwoDigits(h);
    TwoDigits(m);
    TwoDigits(s);
    ThreeDigits(ms);
    assert TimeText(t) == Joined(Padded(h, 2), Padded(m, 2), Padded(s, 2), Padded(ms, 3));
  }

  lemma TimeDivides(h: nat, m: nat, s: nat, ms: nat)
    requires m < 60 && s < 60 && ms < 1000
    ensures var t := h * 3600000 + m * 60000 + s * 1000 + ms;
            t / 3600000 == h && t / 60000 % 60 == m && t / 1000 % 60 == s && t % 1000 == ms
  {
    var t := h * 3600000 + m * 60000 + s * 1000 + ms;
    var mins, secs := h * 60 + m, (h * 60 + m) * 60 + s;
    assert t == secs * 1000 + ms;
    assert t / 1000 == secs;
    assert t == mins * 60000 + (s * 1000 + ms);
    assert t / 60000 == mins;
  }

  // ---------------------------------------------------------------- lines

  /** Where the first line of `s` ends, its break included; CR LF is one break. */
  function FirstLine(s: string): (n: nat)
    requires s != ""
    ensures 1 <= n <= |s|
  {
    if IsBreak(s[0]) then (if s[0] == '\r' && |s| > 1 && s[1] == '\n' then 2 else 1)
    else if |s| == 1 then 1
    else 1 + FirstLine(s[1..])
  }

  /** `str.splitlines(True)`. */
  function Lines(s: string): seq<string> {
    if s == "" then [] else [s[..FirstLine(s)]] + Lines(s[FirstLine(s)..])
  }

  lemma NoLines()
    ensures Lines("") == []
  {
  }

  lemma {:induction false} FirstLineAt(a: string, rest: string)
    requires NoBreak(a)
    ensures FirstLine(a + LF + rest) == |a| + 1
  {
    if a == "" {
      assert a + LF + rest == LF + rest;
    } else {
      assert (a + LF + rest)[1..] == a[1..] + LF + rest;
      FirstLineAt(a[1..], rest);
    }
  }

  lemma LinesStep(a: string, rest: string)
    requires NoBreak(a)
    ensures Lines(a + LF + rest) == [a + LF] + Lines(rest)
  {
    FirstLineAt(a, rest);
    var s := a + LF + rest;
    assert s[..|a| + 1] == a + LF;
    assert s[|a| + 1..] == rest;
  }

  /** A line is text without breaks, then white space. */
  ghost predicate LineShape(line: string, k: nat) {
    k <= |line| && NoBreak(line[..k]) && Blank(line[k..])
  }

  lemma {:induction false} FirstLineShape(s: string) returns (k: nat)
    requires s != ""
    ensures LineShape(s[..FirstLine(s)], k)
  {
    if IsBreak(s[0]) || |s| == 1 {
      k := if IsBreak(s[0]) then 0 else 1;
    } else {
      k := FirstLineShape(s[1..]);
      var l := s[1..][..FirstLine(s[1..])];
      assert s[..FirstLine(s)] == [s[0]] + l;
      assert ([s[0]] + l)[..k + 1] == [s[0]] + l[..k];
      assert ([s[0]] + l)[k + 1..] == l[k..];
      k := k + 1;
    }
  }

  lemma RStripOneLine(line: string, k: nat)
    requires LineShape(line, k)
    ensures OneLine(RStrip(line))
  {
    RStripPrefix(line);
    var r := RStrip(line);
    forall i | k <= i < |line| ensures IsSpace(line[i]) {
      assert line[i] == line[k..][i - k];
    }
    assert |r| <= k;
    assert r == line[..k][..|r|];
  }

  lemma RStripKeeps(s: string)
    requires OneLine(s)
    ensures RStrip(s) == s && RStrip(s + LF) == s
  {
    assert (s + LF)[..|s + LF| - 1] == s;
  }

  /** Every line of a text, stripped on the right, can stand on one line. */
  lemma {:induction false} LinesAreLines(s: string)
    ensures forall l :: l in Lines(s) ==> OneLine(RStrip(l))
  {
    if s != "" {
      var k := FirstLineShape(s);
      RStripOneLine(s[..FirstLine(s)], k);
      LinesAreLines(s[FirstLine(s)..]);
    }
  }

  /** A text with breaks splits at its first newline into a line and the rest. */
  lemma LinedSplit(s: string) returns (n: nat)
    requires Lined(s) && !NoBreak(s)
    ensures 0 < n < |s| - 1 && s == s[..n] + LF + s[n + 1..]
    ensures OneLine(s[..n]) && Lined(s[n + 1..])
  {
    n := FirstBreak(s);
    assert s[n] == '\n';
    var rest := s[n + 1..];
    assert IsSpace(s[n]);
    forall i | 0 <= i < |rest| && IsBreak(rest[i]) ensures rest[i] == '\n' && i > 0 && !IsSpace(rest[i - 1]) {
      assert rest[i] == s[n + 1 + i];
      assert i > 0 ==> rest[i - 1] == s[n + i];
    }
  }

  function FirstBreak(s: string): (n: nat)
    requires !NoBreak(s)
    ensures n < |s| && IsBreak(s[n]) && NoBreak(s[..n])
  {
    if IsBreak(s[0]) then 0
    else
      assert forall i :: 0 < i < |s| ==> s[i] == s[1..][i - 1];
      var m := FirstBreak(s[1..]);
      assert s[..m + 1] == [s[0]] + s[1..][..m];
      m + 1
  }

  lemma Front(a: string, b: string, c: string, d: string)
    ensures a + b + c + d == a + (b + c + d) && a + b + c == a + (b + c)
  {
  }

  /** The lines of a text in front of other lines. */
  lemma {:induction false} LinesConcat(s: string, rest: string)
    requires Lined(s)
    ensures Lines(s + LF + rest) == Lines(s + LF) + Lines(rest)
    decreases |s|
  {
    hide Lines, IsBreak, IsSpace;
    if NoBreak(s) {
      LinesStep(s, rest);
      LinesStep(s, "");
      NoLines();
      assert s + LF + "" == s + LF && [s + LF] + [] == [s + LF];
    } else {
      var n := LinedSplit(s);
      var a, b := s[..n], s[n + 1..];
      LinesConcat(b, rest);
      Front(a + LF, b, LF, rest);
      LinesStep(a, b + LF + rest);
      LinesStep(a, b + LF);
      assert [a + LF] + (Lines(b + LF) + Lines(rest)) == [a + LF] + Lines(b + LF) + Lines(rest);
    }
  }

  // ---------------------------------------------------------------- reading blocks

  /** Position of the first "-->" in `s`. */
  function FirstArrow(s: string): (r: Option<nat>)
    ensures r.Some? ==> r.value + 3 <= |s|
  {
    if |s| < 3 then None
    else if s[..3] == ARROW then Some(0)
    else
      match FirstArrow(s[1..])
      case None => None
      case Some(i) => Some(i + 1)
  }

  function UpToBlank(s: string): string {
    if s == "" || s[0] == ' ' then "" else [s[0]] + UpToBlank(s[1..])
  }

  function StripAll(lines: seq<string>): (r: seq<string>)
    ensures |r| == |lines|
    ensures forall i :: 0 <= i < |lines| ==> r[i] == RStrip(lines[i])
  {
    if lines == [] then [] else [RStrip(lines[0])] + StripAll(lines[1..])
  }

  function Join(lines: seq<string>): string {
    if lines == [] then "" else if |lines| == 1 then lines[0] else lines[0] + LF + Join(lines[1..])
  }

  /** The start and end fields of a time line; there must be exactly one arrow. */
  function SplitTimes(line: string): Option<(string, string)> {
    match FirstArrow(line)
    case None => None
    case Some(i) =>
      var tail := line[i + 3..];
      if FirstArrow(tail).Some? then None
      else Some((RStrip(LStrip(line[..i])), RStrip(LStrip(UpToBlank(LStrip(tail))))))
  }

  /** One block of non-blank lines: an optional number, the time line, the text. */
  function ReadItem(block: seq<string>): Option<Cue> {
    if |block| < 2 then None
    else
      var lines := StripAll(block);
      var body := if FirstArrow(lines[0]).None? then lines[1..] else lines;
      match SplitTimes(body[0])
      case None => None
      case Some(times) =>
        var start, end := ReadTime(times.0), ReadTime(times.1);
        if start.None? || end.None? then None
        else Some(Cue(start.value, end.value, Join(body[1..])))
  }

  /** Collects lines up to a blank one into a block; the first bad block makes the whole text unreadable. */
  function ReadBlocks(lines: seq<string>, block: seq<string>): Option<seq<Cue>> {
    if lines == [] then Some([])
    else if !Blank(lines[0]) then ReadBlocks(lines[1..], block + [lines[0]])
    else if block == [] then ReadBlocks(lines[1..], [])
    else
      match ReadItem(block)
      case None => None
      case Some(cue) =>
        match ReadBlocks(lines[1..], [])
        case None => None
        case Some(cues) => Some([cue] + cues)
  }

  /** `SubRipFile.from_string` with errors raised; a blank line is supplied at the end. */
  function Read(text: string): Option<seq<Cue>> {
    ReadBlocks(Lines(text) + [LF], [])
  }

  // ---------------------------------------------------------------- writing items

  function TimeLine(cue: Cue): string {
    TimeText(cue.start) + " --> " + TimeText(cue.end)
  }

  /** `str(SubRipItem)` for an item without position. */
  function ItemText(index: nat, cue: Cue): string {
    Decimal(index) + LF + (TimeLine(cue) + LF + (cue.text + LF))
  }

  /** A cue that a SubRip item carries unchanged. */
  predicate Writable(cue: Cue) {
    cue.start >= 0 && cue.end >= 0 && Lined(cue.text)
  }

  /** A time field as it stands beside an arrow. */
  predicate TimeChars(s: string) {
    s != "" && forall i :: 0 <= i < |s| ==> !IsSpace(s[i]) && s[i] != '>'
  }

  lemma TimeTextChars(t: int)
    ensures TimeChars(TimeText(t))
  {
    var s := TimeText(t);
    assert |s| >= 1;
    assert forall i :: 0 <= i < |s| ==> IsDigit(s[i]) || IsTimeSeparator(s[i]);
  }

  lemma {:induction false} NoArrow(s: string)
    requires forall i :: 0 <= i < |s| ==> s[i] != '>'
    ensures FirstArrow(s) == None
  {
    if |s| >= 3 {
      assert s[..3][2] == s[2] != ARROW[2];
      NoArrow(s[1..]);
    }
  }

  lemma {:induction false} ArrowAt(a: string, rest: string)
    requires forall i :: 0 <= i < |a| ==> a[i] != '>'
    ensures FirstArrow(a + ARROW + rest) == Some(|a|)
  {
    var s := a + ARROW + rest;
    if a == "" {
      assert s[..3] == ARROW;
    } else {
      assert s[..3][2] == s[2] != ARROW[2];
      assert s[1..] == a[1..] + ARROW + rest;
      ArrowAt(a[1..], rest);
    }
  }

  lemma {:induction false} UpToBlankAll(s: string)
    requires forall i :: 0 <= i < |s| ==> s[i] != ' '
    ensures UpToBlank(s) == s
  {
    if s != "" {
      UpToBlankAll(s[1..]);
    }
  }

  lemma StripFields(a: string, b: string)
    requires TimeChars(a) && TimeChars(b)
    ensures RStrip(LStrip(a + " ")) == a
    ensures RStrip(LStrip(UpToBlank(LStrip(" " + b)))) == b
  {
    assert !IsSpace((a + " ")[0]) && (a + " ")[..|a + " "| - 1] == a;
    assert RStrip(a + " ") == RStrip(a);
    assert (" " + b)[1..] == b && !IsSpace(b[0]);
    UpToBlankAll(b);
  }

  lemma SplitTimeLine(a: string, b: string)
    requires TimeChars(a) && TimeChars(b)
    ensures SplitTimes(a + " --> " + b) == Some((a, b))
  {
    var line := a + " --> " + b;
    var head, tail := a + " ", " " + b;
    assert line == head + ARROW + tail;
    ArrowAt(head, tail);
    assert line[..|head|] == head && line[|head| + 3..] == tail;
    NoArrow(tail);
    StripFields(a, b);
  }

  lemma JoinedShape(a: string, b: string)
    requires TimeChars(a) && TimeChars(b)
    ensures OneLine(a + " --> " + b) && !Blank(a + " --> " + b + LF)
  {
    var line := a + " --> " + b;
    assert !IsSpace(line[|line| - 1]);
    assert !IsSpace((line + LF)[0]);
  }

  lemma TimeLineShape(cue: Cue)
    ensures OneLine(TimeLine(cue)) && !Blank(TimeLine(cue) + LF)
  {
    TimeTextChars(cue.start);
    TimeTextChars(cue.end);
    JoinedShape(TimeText(cue.start), TimeText(cue.end));
  }

  lemma DecimalShape(n: nat)
    ensures OneLine(Decimal(n)) && !Blank(Decimal(n) + LF)
  {
    var line := Decimal(n) + LF;
    assert line[0] == Decimal(n)[0] && !IsSpace(line[0]);
  }

  lemma LinesOfItem(index: nat, cue: Cue, rest: string)
    requires Writable(cue)
    ensures Lines(ItemText(index, cue) + LF + rest)
         == [Decimal(index) + LF, TimeLine(cue) + LF] + Lines(cue.text + LF) + [LF] + Lines(rest)
  {
    DecimalShape(index);
    TimeLineShape(cue);
    ItemLines(Decimal(index), TimeLine(cue), cue.text, rest);
  }

  lemma Regroup(a: string, b: string, c: string, d: string, e: string)
    ensures a + (b + c) + d + e == a + (b + (c + (d + e)))
  {
  }

  lemma EmptyLine(rest: string)
    ensures Lines(LF + rest) == [LF] + Lines(rest)
  {
    LinesStep("", rest);
    assert "" + LF == LF;
  }

  lemma ItemLines(a: string, b: string, c: string, rest: string)
    requires NoBreak(a) && NoBreak(b) && Lined(c)
    ensures Lines(a + LF + (b + LF + (c + LF)) + LF + rest) == [a + LF, b + LF] + Lines(c + LF) + [LF] + Lines(rest)
  {
    hide Lines, Lined, NoBreak;
    Regroup(a + LF, b + LF, c + LF, LF, rest);
    LinesStep(a, b + LF + (c + LF + (LF + rest)));
    LinesStep(b, c + LF + (LF + rest));
    LinesConcat(c, LF + rest);
    EmptyLine(rest);
    assert [a + LF] + ([b + LF] + (Lines(c + LF) + ([LF] + Lines(rest))))
        == [a + LF, b + LF] + Lines(c + LF) + [LF] + Lines(rest);
  }

  lemma StripAllConcat(a: string, b: string, rest: seq<string>)
    ensures StripAll([a, b] + rest) == [RStrip(a), RStrip(b)] + StripAll(rest)
  {
    var all := [a, b] + rest;
    forall i | 2 <= i < |all| ensures all[i] == rest[i - 2] {}
  }

  /** A block of a number, a time line and text lines reads as the cue of its parts. */
  lemma ReadItemParts(number: string, line: string, texts: seq<string>, a: string, b: string, start: int, end: int)
    requires OneLine(number) && OneLine(line) && FirstArrow(number) == None
    requires SplitTimes(line) == Some((a, b)) && ReadTime(a) == Some(start) && ReadTime(b) == Some(end)
    ensures ReadItem([number + LF, line + LF] + texts) == Some(Cue(start, end, Join(StripAll(texts))))
  {
    RStripKeeps(number);
    RStripKeeps(line);
    StripAllConcat(number + LF, line + LF, texts);
    var body := [line] + StripAll(texts);
    assert ([number, line] + StripAll(texts))[1..] == body;
    assert body[1..] == StripAll(texts);
  }

  /** The lines of a non-empty text are not blank, and stripped and joined they are the text. */
  lemma {:induction false} TextLines(s: string)
    requires Lined(s) && s != ""
    ensures Lines(s + LF) != [] && forall l :: l in Lines(s + LF) ==> !Blank(l)
    ensures Join(StripAll(Lines(s + LF))) == s
    decreases |s|
  {
    if NoBreak(s) {
      LinesStep(s, "");
      assert s + LF + "" == s + LF;
      assert Lines(s + LF) == [s + LF];
      RStripKeeps(s);
      assert !IsSpace((s + LF)[|s| - 1]);
    } else {
      var n := LinedSplit(s);
      var a, b := s[..n], s[n + 1..];
      TextLines(b);
      assert s + LF == a + LF + (b + LF);
      LinesStep(a, b + LF);
      RStripKeeps(a);
      assert a != "" && !IsSpace((a + LF)[n - 1]);
      assert ([a + LF] + Lines(b + LF))[1..] == Lines(b + LF);
    }
  }

  /** What the reader sees of a text's lines: none when the text is empty. */
  function BlockLines(text: string): seq<string> {
    if text == "" then [] else Lines(text + LF)
  }

  /** A written block reads back as the cue, with every line of its text. */
  lemma ReadWrittenItem(index: nat, cue: Cue)
    requires Writable(cue)
    ensures ReadItem([Decimal(index) + LF, TimeLine(cue) + LF] + BlockLines(cue.text)) == Some(cue)
  {
    hide ReadTime, TimeText, Decimal, ReadItem, SplitTimes, FirstArrow;
    DecimalShape(index);
    TimeLineShape(cue);
    NoArrow(Decimal(index));
    TimeTextChars(cue.start);
    TimeTextChars(cue.end);
    SplitTimeLine(TimeText(cue.start), TimeText(cue.end));
    TimeRoundTrip(cue.start);
    TimeRoundTrip(cue.end);
    ReadItemParts(Decimal(index), TimeLine(cue), BlockLines(cue.text), TimeText(cue.start), TimeText(cue.end),
                  cue.start, cue.end);
    if cue.text != "" {
      TextLines(cue.text);
    }
  }

  /** Lines that are not blank join the block. */
  lemma {:induction false} TextBlock(lines: seq<string>, rest: seq<string>, block: seq<string>)
    requires forall l :: l in lines ==> !Blank(l)
    ensures ReadBlocks(lines + rest, block) == ReadBlocks(rest, block + lines)
    decreases |lines|
  {
    if lines == [] {
      assert lines + rest == rest && block + lines == block;
    } else {
      assert (lines + rest)[1..] == lines[1..] + rest;
      assert block + [lines[0]] + lines[1..] == block + lines;
      TextBlock(lines[1..], rest, block + [lines[0]]);
    }
  }

  lemma BlankLine(x: string, rest: seq<string>, block: seq<string>)
    requires Blank(x) && ReadBlocks(rest, []).Some?
    ensures block == [] ==> ReadBlocks([x] + rest, block) == ReadBlocks(rest, [])
    ensures block != [] && ReadItem(block).Some? ==>
              ReadBlocks([x] + rest, block) == Some([ReadItem(block).value] + ReadBlocks(rest, []).value)
  {
    assert ([x] + rest)[1..] == rest;
  }

  /** A block of lines that are not blank, and a blank line. */
  lemma OneBlock(block: seq<string>, rest: seq<string>, cue: Cue)
    requires block != [] && (forall l :: l in block ==> !Blank(l)) && ReadBlocks(rest, []).Some?
    requires ReadItem(block) == Some(cue)
    ensures ReadBlocks(block + ([LF] + rest), []) == Some([cue] + ReadBlocks(rest, []).value)
  {
    hide ReadItem, ReadBlocks;
    TextBlock(block, [LF] + rest, []);
    assert [] + block == block && Blank(LF);
    BlankLine(LF, rest, block);
  }

  lemma ReadBlocksOfItem(index: nat, cue: Cue, rest: seq<string>)
    requires Writable(cue) && ReadBlocks(rest, []).Some?
    ensures ReadBlocks([Decimal(index) + LF, TimeLine(cue) + LF] + Lines(cue.text + LF) + [LF] + rest, [])
         == Some([cue] + ReadBlocks(rest, []).value)
  {
    hide ReadItem, ReadBlocks, Decimal, TimeLine;
    DecimalShape(index);
    TimeLineShape(cue);
    ReadWrittenItem(index, cue);
    var head := [Decimal(index) + LF, TimeLine(cue) + LF];
    var block := head + BlockLines(cue.text);
    assert Blank(LF);
    if cue.text == "" {
      LinesStep("", "");
      assert "" + LF + "" == LF && "" + LF == LF;
      assert Lines(cue.text + LF) == [LF];
      BlankLine(LF, rest, []);
      assert head + [LF] + [LF] + rest == block + ([LF] + ([LF] + rest));
      OneBlock(block, [LF] + rest, cue);
    } else {
      TextLines(cue.text);
      assert head + Lines(cue.text + LF) + [LF] + rest == block + ([LF] + rest);
      OneBlock(block, rest, cue);
    }
  }
}
