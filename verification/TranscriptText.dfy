/** Conversion between SubRip text and sjson, and the guess of a transcript's format from its text. */
module TranscriptText {
  import opened Prelude
  import opened SubRip
  import opened Whitespace

  const SRT := "srt"
  const SJSON := "sjson"

  /** The three parallel lists of an sjson document. */
  datatype Sjson = Sjson(start: seq<int>, end: seq<int>, text: seq<string>)

  /** What decoding a JSON text gives: subtitles, or a document without the three lists. */
  datatype Document = Subtitles(subs: Sjson) | OtherDocument

  /** JSON decoding (None: not JSON) and encoding, whose internals are outside the model. */
  datatype Codec = Codec(loads: string -> Option<Document>, dumps: Sjson -> string)

  ghost predicate Faithful(codec: Codec) {
    forall j {:trigger codec.dumps(j)} :: codec.loads(codec.dumps(j)) == Some(Subtitles(j))
  }

  datatype ConversionError = UnreadableSrt | UnreadableSjson | UnknownFormat

  predicate SameLengths(j: Sjson) {
    |j.start| == |j.end| == |j.text|
  }

  /** `text.replace('\n', ' ')` */
  function Flatten(s: string): (r: string)
    ensures |r| == |s|
    ensures forall i :: 0 <= i < |s| ==> r[i] == if s[i] == '\n' then ' ' else s[i]
  {
    if s == "" then "" else [if s[0] == '\n' then ' ' else s[0]] + Flatten(s[1..])
  }

  function FromCues(cues: seq<Cue>): (j: Sjson)
    ensures |j.start| == |j.end| == |j.text| == |cues|
  {
    Sjson(seq(|cues|, i requires 0 <= i < |cues| => cues[i].start),
          seq(|cues|, i requires 0 <= i < |cues| => cues[i].end),
          seq(|cues|, i requires 0 <= i < |cues| => Flatten(cues[i].text)))
  }

  function ToCues(j: Sjson): (cues: seq<Cue>)
    requires SameLengths(j)
    ensures |cues| == |j.start|
  {
    seq(|j.start|, i requires 0 <= i < |j.start| => Cue(j.start[i], j.end[i], j.text[i]))
  }

  /** The items of `cues` numbered from `index`, each followed by an empty line. */
  function Written(cues: seq<Cue>, index: nat): string {
    if cues == [] then "" else ItemText(index, cues[0]) + LF + Written(cues[1..], index + 1)
  }

  function ToSrt(j: Sjson): string {
    if SameLengths(j) then Written(ToCues(j), 0) else ""
  }

  /** What is written, for two cues: number from 0, time line, text, empty line. */
  lemma TwoItems(a: Cue, b: Cue)
    ensures Written([a, b], 0)
         == ("0\n" + TimeText(a.start) + " --> " + TimeText(a.end) + "\n" + a.text + "\n\n")
            + ("1\n" + TimeText(b.start) + " --> " + TimeText(b.end) + "\n" + b.text + "\n\n")
  {
    hide TimeText, ItemText;
    assert [a, b][1..] == [b] && [b][1..] == [];
    assert Written([b], 1) == ItemText(1, b) + LF + Written([], 2);
    assert Written([a, b], 0) == ItemText(0, a) + LF + (ItemText(1, b) + LF + "");
    ItemShape(0, "0", a);
    ItemShape(1, "1", b);
    assert "0" + "\n" == "0\n" && "1" + "\n" == "1\n";
    assert ItemText(1, b) + LF + "" == ItemText(1, b) + LF;
  }

  lemma ItemShape(index: nat, number: string, cue: Cue)
    requires index < 10 && number == [('0' as int + index) as char]
    ensures ItemText(index, cue) + LF
         == number + "\n" + TimeText(cue.start) + " --> " + TimeText(cue.end) + "\n" + cue.text + "\n\n"
  {
    assert Decimal(index) == number;
    hide TimeText, Decimal;
    Ungroup(number, LF, TimeText(cue.start), " --> ", TimeText(cue.end), cue.text);
    assert LF + LF == "\n\n";
  }

  lemma Ungroup(n: string, lf: string, x: string, arrow: string, y: string, z: string)
    ensures n + lf + (x + arrow + y + lf + (z + lf)) + lf == n + lf + x + arrow + y + lf + z + (lf + lf)
  {
    assert n + lf + (x + arrow + y + lf + (z + lf)) == n + lf + x + arrow + y + lf + z + lf;
  }

  lemma Regroup<T>(a: seq<T>, b: seq<T>, c: seq<T>, d: seq<T>)
    ensures a + (b + c + d) == a + b + c + d
  {
  }

  method GenerateSjsonFromSrt(cues: seq<Cue>) returns (j: Sjson)
    ensures j == FromCues(cues)
  {
    var starts, ends, texts := [], [], [];
    for i := 0 to |cues|
      invariant starts == FromCues(cues).start[..i]
      invariant ends == FromCues(cues).end[..i]
      invariant texts == FromCues(cues).text[..i]
    {
      starts := starts + [cues[i].start];
      ends := ends + [cues[i].end];
      texts := texts + [Flatten(cues[i].text)];
    }
    j := Sjson(starts, ends, texts);
  }

  method GenerateSrtFromSjson(j: Sjson) returns (output: string)
    ensures output == ToSrt(j)
  {
    output := "";
    if !(|j.start| == |j.end| == |j.text|) {
      return;
    }
    ghost var cues := ToCues(j);
    for i := 0 to |j.start|
      invariant output + Written(cues[i..], i) == Written(cues, 0)
    {
      var item := Cue(j.start[i], j.end[i], j.text[i]);
      assert cues[i..][0] == item && cues[i..][1..] == cues[i + 1..];
      Regroup(output, ItemText(i, item), LF, Written(cues[i + 1..], i + 1));
      output := output + ItemText(i, item);
      output := output + LF;
    }
    assert output + "" == output;
  }

  /** `Transcript.convert` on decoded text. */
  function Convert(codec: Codec, text: string, from: string, to: string): Result<string, ConversionError> {
    if from !in {SRT, SJSON} || to !in {SRT, SJSON} then Err(UnknownFormat)
    else if from == to then Ok(text)
    else if from == SRT then
      match Read(text)
      case None => Err(UnreadableSrt)
      case Some(cues) => Ok(codec.dumps(FromCues(cues)))
    else
      match codec.loads(text)
      case Some(Subtitles(j)) => Ok(ToSrt(j))
      case _ => Err(UnreadableSjson)
  }

  /** `get_transcript_format`; None stands for the reader's error. */
  function FormatOf(codec: Codec, text: string): (f: Option<string>)
    ensures f.Some? ==> f.value in {SRT, SJSON}
  {
    if codec.loads(text).Some? then Some(SJSON)
    else
      match Read(text)
      case None => None
      case Some(cues) => Some(if cues != [] then SRT else SJSON)
  }

  // ---------------------------------------------------------------- written text reads back

  lemma NothingLeft()
    ensures ReadBlocks([LF], []) == Some([])
  {
    assert [LF][1..] == [] && Blank([LF][0]);
  }

  /** Any list of writable cues, with texts of one or several lines, reads back exactly once written. */
  lemma {:induction false} ReadWritten(cues: seq<Cue>, index: nat)
    requires forall c :: c in cues ==> Writable(c)
    ensures Read(Written(cues, index)) == Some(cues)
  {
    if cues == [] {
      assert Lines("") + [LF] == [LF];
      NothingLeft();
    } else {
      hide ReadBlocks, Lines, ItemText, TimeLine;
      var rest := Written(cues[1..], index + 1);
      ReadWritten(cues[1..], index + 1);
      LinesOfItem(index, cues[0], rest);
      ReadBlocksOfItem(index, cues[0], Lines(rest) + [LF]);
      var head := [Decimal(index) + LF, TimeLine(cues[0]) + LF] + Lines(cues[0].text + LF) + [LF];
      Associate(head, Lines(rest), [LF]);
      assert [cues[0]] + cues[1..] == cues;
    }
  }

  // ---------------------------------------------------------------- what the reader can return

  lemma {:induction false} OneLineEnds(s: string)
    requires NoBreak(s) && s != ""
    ensures FirstLine(s) == |s|
  {
    if |s| > 1 {
      OneLineEnds(s[1..]);
    }
  }

  /** A single line is too little for a cue. */
  lemma OneLineUnreadable(s: string)
    requires NoBreak(s) && !Blank(s)
    ensures Read(s) == None
  {
    OneLineEnds(s);
    assert s[..|s|] == s && Lines(s[|s|..]) == [];
    assert Lines(s) + [LF] == [s] + [LF];
    TextBlock([s], [LF], []);
    assert [] + [s] == [s];
    assert ReadItem([s]) == None && Blank(LF);
  }

  lemma FlattenOneLine(s: string)
    requires NoBreak(s)
    ensures Flatten(s) == s
  {
  }

  lemma FlattenLined(s: string)
    requires Lined(s)
    ensures OneLine(Flatten(s))
  {
  }

  lemma {:induction false} JoinLined(lines: seq<string>)
    requires forall l :: l in lines ==> OneLine(l) && l != ""
    ensures Lined(Join(lines))
    ensures lines != [] ==> Join(lines) != ""
  {
    if lines == [] {
    } else if |lines| == 1 {
      assert lines[0] in lines;
    } else {
      assert lines[0] in lines;
      JoinLined(lines[1..]);
      LinedAfter(lines[0], Join(lines[1..]));
    }
  }

  lemma LinedAfter(a: string, b: string)
    requires OneLine(a) && a != "" && Lined(b) && b != ""
    ensures Lined(a + LF + b)
  {
    var s := a + LF + b;
    var n := |a|;
    assert !IsBreak(b[0]);
    forall i | 0 <= i < |s| && IsBreak(s[i]) ensures s[i] == '\n' && i > 0 && !IsSpace(s[i - 1]) {
      if i > n {
        assert s[i] == b[i - n - 1] && i > n + 1 && s[i - 1] == b[i - n - 2];
      }
    }
  }

  ghost predicate Strippable(lines: seq<string>) {
    forall l :: l in lines ==> OneLine(RStrip(l))
  }

  lemma ReadItemLined(block: seq<string>)
    requires Strippable(block) && forall l :: l in block ==> !Blank(l)
    ensures ReadItem(block).Some? ==> Lined(ReadItem(block).value.text)
  {
    if ReadItem(block).Some? {
      var lines := StripAll(block);
      forall l | l in lines ensures OneLine(l) && l != "" {
        var i :| 0 <= i < |lines| && lines[i] == l;
        assert block[i] in block;
        RStripPrefix(block[i]);
        assert block[i][0..] == block[i];
      }
      var body := if FirstArrow(lines[0]).None? then lines[1..] else lines;
      JoinLined(body[1..]);
    }
  }

  ghost predicate AllLined(cues: seq<Cue>) {
    forall c :: c in cues ==> Lined(c.text)
  }

  lemma {:induction false} ReadBlocksLined(lines: seq<string>, block: seq<string>)
    requires Strippable(lines) && Strippable(block)
    requires forall l :: l in block ==> !Blank(l)
    ensures ReadBlocks(lines, block).Some? ==> AllLined(ReadBlocks(lines, block).value)
    decreases |lines|
  {
    if lines == [] {
    } else if !Blank(lines[0]) {
      ReadBlocksLined(lines[1..], block + [lines[0]]);
    } else {
      ReadBlocksLined(lines[1..], []);
      ReadItemLined(block);
    }
  }

  /** Whatever the reader accepts, its texts are texts that it would read back. */
  lemma ReadLined(text: string)
    requires Read(text).Some?
    ensures AllLined(Read(text).value)
  {
    LinesAreLines(text);
    assert OneLine(RStrip(LF)) by { RStripKeeps(""); assert "" + LF == LF; }
    ReadBlocksLined(Lines(text) + [LF], []);
  }

  // ---------------------------------------------------------------- times below zero

  /** The reader accepts a minus sign in a time; the writer writes such a time as zero. */
  function FromZero(t: int): (r: int)
    ensures r >= 0 && (r == t <==> t >= 0)
  {
    if t < 0 then 0 else t
  }

  function Clamped(cues: seq<Cue>): (r: seq<Cue>)
    ensures |r| == |cues|
  {
    seq(|cues|, i requires 0 <= i < |cues| =>
      Cue(FromZero(cues[i].start), FromZero(cues[i].end), cues[i].text))
  }

  lemma {:induction false} WrittenClamped(cues: seq<Cue>, index: nat)
    ensures Written(Clamped(cues), index) == Written(cues, index)
  {
    if cues == [] {
    } else {
      assert Clamped(cues)[1..] == Clamped(cues[1..]);
      WrittenClamped(cues[1..], index + 1);
      assert TimeLine(Clamped(cues)[0]) == TimeLine(cues[0]);
    }
  }

  /** Such cues are written and read back with their times clamped at zero. */
  lemma ReadWrittenClamped(cues: seq<Cue>, index: nat)
    requires AllLined(cues)
    ensures Read(Written(cues, index)) == Some(Clamped(cues))
  {
    forall i | 0 <= i < |cues| ensures Writable(Clamped(cues)[i]) {
      assert cues[i] in cues;
    }
    ReadWritten(Clamped(cues), index);
    WrittenClamped(cues, index);
  }

  /** Written cues read back exactly if and only if no time is below zero and every text is one that SubRip can carry:
      lines that are not empty, without white space at their ends, separated by newlines. */
  lemma CuesRoundTrip(cues: seq<Cue>, index: nat)
    ensures Read(Written(cues, index)) == Some(cues) <==> forall c :: c in cues ==> Writable(c)
  {
    if forall c :: c in cues ==> Writable(c) {
      ReadWritten(cues, index);
    }
    if Read(Written(cues, index)) == Some(cues) {
      ReadLined(Written(cues, index));
      ReadWrittenClamped(cues, index);
      forall c | c in cues ensures Writable(c) {
        var i :| 0 <= i < |cues| && cues[i] == c;
        assert Clamped(cues)[i] == c;
      }
    }
  }

  /** Converting what was written to sjson: every cue keeps its times, and its text is the cue's with a space for each
      newline. */
  lemma ConvertWritten(codec: Codec, cues: seq<Cue>)
    requires Faithful(codec) && forall c :: c in cues ==> Writable(c)
    ensures var r := Convert(codec, Written(cues, 0), SRT, SJSON);
            && r.Ok? && codec.loads(r.value).Some? && codec.loads(r.value).value.Subtitles?
            && var j := codec.loads(r.value).value.subs;
            && |j.start| == |j.end| == |j.text| == |cues|
            && forall i :: 0 <= i < |cues| ==>
                 && j.start[i] == cues[i].start && j.end[i] == cues[i].end
                 && |j.text[i]| == |cues[i].text|
                 && forall k :: 0 <= k < |cues[i].text| ==>
                      j.text[i][k] == if cues[i].text[k] == '\n' then ' ' else cues[i].text[k]
  {
    ReadWritten(cues, 0);
    assert SRT != SJSON by { assert |SRT| != |SJSON|; }
    assert codec.loads(codec.dumps(FromCues(cues))) == Some(Subtitles(FromCues(cues)));
  }

  /** A cue with two text lines is carried with both, and converted to both separated by a space. */
  lemma TwoLines(start: nat, end: nat, a: string, b: string)
    requires OneLine(a) && a != "" && OneLine(b) && b != ""
    ensures Read(Written([Cue(start, end, a + LF + b)], 0)) == Some([Cue(start, end, a + LF + b)])
    ensures FromCues([Cue(start, end, a + LF + b)]) == Sjson([start], [end], [a + " " + b])
  {
    hide Read, Written, Lined;
    LinedAfter(a, b);
    ReadWritten([Cue(start, end, a + LF + b)], 0);
    FlattenTwo(a, b);
    assert [a + " " + b] == FromCues([Cue(start, end, a + LF + b)]).text;
  }

  lemma FlattenTwo(a: string, b: string)
    requires NoBreak(a) && NoBreak(b)
    ensures Flatten(a + LF + b) == a + " " + b
  {
    var s := a + LF + b;
    forall i | 0 <= i < |s| ensures Flatten(s)[i] == (a + " " + b)[i] {
      assert i < |a| ==> s[i] == a[i];
      assert i > |a| ==> s[i] == b[i - |a| - 1];
    }
  }

  // ---------------------------------------------------------------- main results

  /** The sjson documents that SubRip can carry. */
  predicate Carriable(j: Sjson) {
    && SameLengths(j)
    && forall i :: 0 <= i < |j.start| ==> j.start[i] >= 0 && j.end[i] >= 0 && OneLine(j.text[i])
  }

  lemma FromToCues(j: Sjson)
    requires SameLengths(j) && forall i :: 0 <= i < |j.text| ==> OneLine(j.text[i])
    ensures FromCues(ToCues(j)) == j
    ensures AllLined(ToCues(j))
  {
    forall i | 0 <= i < |j.start| ensures Flatten(j.text[i]) == j.text[i] {
      FlattenOneLine(j.text[i]);
    }
  }

  lemma FromCuesTexts(cues: seq<Cue>)
    requires AllLined(cues)
    ensures forall i :: 0 <= i < |cues| ==> OneLine(FromCues(cues).text[i])
  {
    forall i | 0 <= i < |cues| ensures OneLine(FromCues(cues).text[i]) {
      assert cues[i] in cues;
      FlattenLined(cues[i].text);
    }
  }

  /** A carriable document is written as the text that reads back as its cues. */
  lemma CarriableComesBack(j: Sjson)
    requires Carriable(j)
    ensures Read(ToSrt(j)) == Some(ToCues(j)) && FromCues(ToCues(j)) == j
  {
    hide Read, Written, Flatten, FromCues, OneLine;
    FromToCues(j);
    ReadWrittenClamped(ToCues(j), 0);
    assert Clamped(ToCues(j)) == ToCues(j);
  }

  /** Writing an sjson document as SubRip text and reading it back gives the document exactly when it is carriable. */
  lemma SjsonRoundTrip(j: Sjson)
    ensures (Read(ToSrt(j)).Some? && FromCues(Read(ToSrt(j)).value) == j) <==> Carriable(j)
  {
    if Carriable(j) {
      CarriableComesBack(j);
    }
    if Read(ToSrt(j)).Some? && FromCues(Read(ToSrt(j)).value) == j {
      var cues := Read(ToSrt(j)).value;
      ReadLined(ToSrt(j));
      FromCuesTexts(cues);
      FromToCues(j);
      ReadWrittenClamped(ToCues(j), 0);
      assert cues == Clamped(ToCues(j));
      forall i | 0 <= i < |j.start| ensures j.start[i] >= 0 && j.end[i] >= 0 {
        assert j.start[i] == cues[i].start && j.end[i] == cues[i].end;
      }
    }
  }

  /** The same through `Convert`: sjson to srt to sjson is the identity exactly on carriable documents. */
  lemma ConvertRoundTrip(codec: Codec, j: Sjson)
    requires Faithful(codec)
    ensures var srt := Convert(codec, codec.dumps(j), SJSON, SRT);
            srt.Ok? && (Convert(codec, srt.value, SRT, SJSON) == Ok(codec.dumps(j)) <==> Carriable(j))
  {
    SjsonRoundTrip(j);
    assert SRT != SJSON by { assert |SRT| != |SJSON|; }
    var read := Read(ToSrt(j));
    if read.Some? && codec.dumps(FromCues(read.value)) == codec.dumps(j) {
      assert codec.loads(codec.dumps(FromCues(read.value))) == codec.loads(codec.dumps(j));
    }
  }

  /** What one pass through sjson makes of cues: flattened texts, and times from zero on. */
  function Normal(cues: seq<Cue>): (r: seq<Cue>)
    ensures |r| == |cues|
  {
    seq(|cues|, i requires 0 <= i < |cues| =>
      Cue(FromZero(cues[i].start), FromZero(cues[i].end), Flatten(cues[i].text)))
  }

  predicate SameTimes(a: seq<Cue>, b: seq<Cue>) {
    |a| == |b| && forall i :: 0 <= i < |a| ==> a[i].start == b[i].start && a[i].end == b[i].end
  }

  lemma TimesKept(cues: seq<Cue>)
    ensures SameTimes(Normal(cues), cues) <==> forall c :: c in cues ==> c.start >= 0 && c.end >= 0
  {
    if SameTimes(Normal(cues), cues) {
      forall c | c in cues ensures c.start >= 0 && c.end >= 0 {
        var i :| 0 <= i < |cues| && cues[i] == c;
        assert Normal(cues)[i].start == c.start;
      }
    }
  }

  lemma NormalTwice(cues: seq<Cue>)
    requires AllLined(cues)
    ensures Clamped(ToCues(FromCues(cues))) == Normal(cues)
    ensures ToCues(FromCues(Normal(cues))) == Normal(cues)
  {
    forall i | 0 <= i < |cues| ensures Flatten(Flatten(cues[i].text)) == Flatten(cues[i].text) {
      assert cues[i] in cues;
      FlattenLined(cues[i].text);
      FlattenOneLine(Flatten(cues[i].text));
    }
  }

  /** Any readable SubRip text: one pass keeps the cues and their order, flattens the texts, and keeps the times exactly
      when none is below zero; a second pass changes nothing. */
  lemma SrtNormalises(text: string)
    requires Read(text).Some?
    ensures var cues := Read(text).value;
            var once := ToSrt(FromCues(cues));
            && Read(once) == Some(Normal(cues))
            && (SameTimes(Normal(cues), cues) <==> forall c :: c in cues ==> c.start >= 0 && c.end >= 0)
            && ToSrt(FromCues(Normal(cues))) == once
  {
    var cues := Read(text).value;
    ReadLined(text);
    PassNormalises(cues);
    TimesKept(cues);
  }

  lemma PassNormalises(cues: seq<Cue>)
    requires AllLined(cues)
    ensures Read(ToSrt(FromCues(cues))) == Some(Normal(cues))
    ensures ToSrt(FromCues(Normal(cues))) == ToSrt(FromCues(cues))
  {
    var flat := ToCues(FromCues(cues));
    FromCuesTexts(cues);
    FromToCues(FromCues(cues));
    NormalTwice(cues);
    ReadWrittenClamped(flat, 0);
    WrittenClamped(flat, 0);
  }

  // ---------------------------------------------------------------- a text whose times are not kept

  lemma NotBlank(s: string)
    requires !Blank(s)
    ensures !Blank(s + LF)
  {
    var i :| 0 <= i < |s| && !IsSpace(s[i]);
    assert (s + LF)[i] == s[i];
  }

  lemma OneItem(number: string, a: string, b: string, text: string, start: int, end: int)
    requires OneLine(number) && FirstArrow(number) == None && OneLine(text)
    requires TimeChars(a) && TimeChars(b) && ReadTime(a) == Some(start) && ReadTime(b) == Some(end)
    ensures ReadItem([number + LF, a + " --> " + b + LF, text + LF]) == Some(Cue(start, end, text))
  {
    hide *;
    var line, z := a + " --> " + b, text + LF;
    JoinedShape(a, b);
    SplitTimeLine(a, b);
    OneTextLine(text);
    ReadItemParts(number, line, [z], a, b, start, end);
    assert [number + LF, line + LF] + [z] == [number + LF, line + LF, z];
  }

  lemma OneTextLine(text: string)
    requires OneLine(text)
    ensures Join(StripAll([text + LF])) == text
  {
    RStripKeeps(text);
    assert StripAll([text + LF]) == [text];
  }

  /** The lines of an item are one cue, whatever the number line says. */
  lemma OneItemBlocks(number: string, a: string, b: string, text: string, start: int, end: int)
    requires OneLine(number) && !Blank(number) && FirstArrow(number) == None
    requires TimeChars(a) && TimeChars(b) && ReadTime(a) == Some(start) && ReadTime(b) == Some(end)
    requires OneLine(text) && !Blank(text)
    ensures ReadBlocks([number + LF, a + " --> " + b + LF, text + LF, LF] + [LF], []) == Some([Cue(start, end, text)])
  {
    hide ReadBlocks, ReadItem, ReadTime, FirstArrow, TimeChars, OneLine;
    JoinedShape(a, b);
    OneItem(number, a, b, text, start, end);
    NotBlank(number);
    NotBlank(text);
    NothingLeft();
    var block := [number + LF, a + " --> " + b + LF, text + LF];
    OneBlock(block, [LF], Cue(start, end, text));
    assert block + ([LF] + [LF]) == [number + LF, a + " --> " + b + LF, text + LF, LF] + [LF];
    assert [Cue(start, end, text)] + [] == [Cue(start, end, text)];
  }

  lemma OneItemReads(number: string, a: string, b: string, text: string, start: int, end: int)
    requires OneLine(number) && !Blank(number) && FirstArrow(number) == None
    requires TimeChars(a) && TimeChars(b) && ReadTime(a) == Some(start) && ReadTime(b) == Some(end)
    requires OneLine(text) && !Blank(text)
    ensures Read(number + LF + (a + " --> " + b + LF + (text + LF)) + LF + "") == Some([Cue(start, end, text)])
  {
    hide Lines, ReadBlocks, ReadTime, FirstArrow, Blank, TimeChars;
    NoLines();
    JoinedShape(a, b);
    ItemLines(number, a + " --> " + b, text, "");
    LinesStep(text, "");
    assert text + LF + "" == text + LF && Lines(text + LF) == [text + LF];
    assert [number + LF, a + " --> " + b + LF] + [text + LF] + [LF] + Lines("")
        == [number + LF, a + " --> " + b + LF, text + LF, LF];
    OneItemBlocks(number, a, b, text, start, end);
  }

  lemma DigitsRead(digits: string)
    requires AllDigits(digits) && digits != ""
    ensures ReadNumber(digits) == LeadingNumber(digits, 0) && NoSeparator(digits) && TimeChars(digits)
  {
    StripTrims(digits);
    DigitsAreNumeral(digits);
    assert IsDigit(digits[0]) && !IsSpace(digits[0]) && !IsSpace(digits[|digits| - 1]);
  }

  lemma MinusReads(field: string, digits: string)
    requires field == "-" + digits && AllDigits(digits) && digits != ""
    ensures ReadNumber(field) == -1 * LeadingNumber(digits, 0) && NoSeparator(field) && TimeChars(field)
  {
    hide Strip, LeadingNumber, NoUnderscores;
    StripTrims(field);
    DigitsAreNumeral(digits);
    assert field[0] == '-' && field[1..] == digits && !IsSpace(field[|field| - 1]);
  }

  lemma JoinedNumbers(h: string, m: string, s: string, ms: string, t: int)
    requires TimeChars(h) && TimeChars(m) && TimeChars(s) && TimeChars(ms)
    requires NoSeparator(h) && NoSeparator(m) && NoSeparator(s) && NoSeparator(ms)
    requires t == ReadNumber(h) * 3600000 + ReadNumber(m) * 60000 + ReadNumber(s) * 1000 + ReadNumber(ms)
    ensures TimeChars(Joined(h, m, s, ms)) && ReadTime(Joined(h, m, s, ms)) == Some(t)
  {
    hide ReadTime, ReadNumber;
    ReadJoined(h, m, s, ms);
    assert |Joined(h, m, s, ms)| >= 1;
  }

  lemma SmallNumbers()
    ensures LeadingNumber("1", 0) == 1 && LeadingNumber("00", 0) == 0
    ensures LeadingNumber("01", 0) == 1 && LeadingNumber("000", 0) == 0
  {
    assert "1"[1..] == "" && "0"[1..] == "" && "00"[1..] == "0" && "01"[1..] == "1" && "000"[1..] == "00";
  }

  lemma EarlyTimes(minus: string, none: string, one: string, millis: string)
    requires minus == "-1" && none == "00" && one == "01" && millis == "000"
    ensures var a := Joined(minus, none, none, millis);
            TimeChars(a) && ReadTime(a) == Some(-3600000)
    ensures var b := Joined(none, none, one, millis);
            TimeChars(b) && ReadTime(b) == Some(1000)
  {
    SmallNumbers();
    MinusReads(minus, "1");
    DigitsRead(none);
    DigitsRead(one);
    DigitsRead(millis);
    JoinedNumbers(minus, none, none, millis, -3600000);
    JoinedNumbers(none, none, one, millis, 1000);
  }

  lemma PassOfOne(cue: Cue)
    requires OneLine(cue.text)
    ensures Read(ToSrt(FromCues([cue]))) == Some([Cue(FromZero(cue.start), FromZero(cue.end), cue.text)])
  {
    hide Read, ToSrt, FromCues, Flatten;
    FlattenOneLine(cue.text);
    PassNormalises([cue]);
    assert Normal([cue]) == [Cue(FromZero(cue.start), FromZero(cue.end), cue.text)];
  }

  lemma LiteralLines(number: string, words: string)
    requires number == "1" && words == "hi"
    ensures OneLine(number) && !Blank(number) && FirstArrow(number) == None
    ensures OneLine(words) && !Blank(words)
  {
    assert !IsSpace(number[0]) && !IsSpace(words[0]);
    NoArrow(number);
  }

  /** "1\n-1:00:00,000 --> 00:00:01,000\nhi\n\n": a readable text with a sign in a time field. The time before zero
      comes back as zero. */
  lemma EarlyTimeIsLost(number: string, minus: string, none: string, one: string, millis: string, words: string)
    requires number == "1" && minus == "-1" && none == "00" && one == "01" && millis == "000" && words == "hi"
    ensures var a, b := Joined(minus, none, none, millis), Joined(none, none, one, millis);
            var text := number + LF + (a + " --> " + b + LF + (words + LF)) + LF + "";
            Read(text) == Some([Cue(-3600000, 1000, words)])
    ensures Read(ToSrt(FromCues([Cue(-3600000, 1000, words)]))) == Some([Cue(0, 1000, words)])
  {
    EarlyTimes(minus, none, one, millis);
    LiteralLines(number, words);
    var a, b := Joined(minus, none, none, millis), Joined(none, none, one, millis);
    OneItemReads(number, a, b, words, -3600000, 1000);
    PassOfOne(Cue(-3600000, 1000, words));
  }
}
