/**
  The incremental event-stream splitter of the web UI (`streamEvents` in `api.ts`): text arrives
  in reads of any size, frames end at blank lines, and a partial frame waits in the buffer.
 */
module EventStream {
  import opened Prelude

  const SEPARATOR: string := "\n\n"

  predicate BlankAt(s: string, i: int) { 0 <= i < |s| - 1 && s[i] == '\n' && s[i + 1] == '\n' }

  predicate NoBlank(s: string) { forall i :: 0 <= i < |s| - 1 ==> !BlankAt(s, i) }

  /** `indexOf("\n\n")`. */
  function IndexOfBlank(s: string): (k: int)
    ensures k == -1 <==> NoBlank(s)
    ensures k != -1 ==> BlankAt(s, k) && forall i :: 0 <= i < k ==> !BlankAt(s, i)
  {
    IndexFrom(s, 0)
  }

  function IndexFrom(s: string, from: nat): (k: int)
    requires from <= |s|
    ensures k == -1 <==> forall i :: from <= i < |s| - 1 ==> !BlankAt(s, i)
    ensures k != -1 ==> from <= k && BlankAt(s, k) && forall i :: from <= i < k ==> !BlankAt(s, i)
    decreases |s| - from
  {
    if from >= |s| - 1 then -1 else if BlankAt(s, from) then from else IndexFrom(s, from + 1)
  }

  /** The frames of the whole text, split at its leftmost separators. */
  function Frames(s: string): seq<string>
    decreases |s|
  {
    var k := IndexOfBlank(s);
    if k == -1 then [] else [s[..k]] + Frames(s[k + 2..])
  }

  /** What is left after the last separator. */
  function Leftover(s: string): string
    decreases |s|
  {
    var k := IndexOfBlank(s);
    if k == -1 then s else Leftover(s[k + 2..])
  }

  function Concat(pieces: seq<string>): string {
    if pieces == [] then "" else Concat(pieces[..|pieces| - 1]) + pieces[|pieces| - 1]
  }

  // ----- the loops -----

  /** One read: append it to the buffer and take out every complete frame. */
  method Feed(buffer: string, read: string) returns (frames: seq<string>, rest: string)
    ensures frames == Frames(buffer + read) && rest == Leftover(buffer + read)
  {
    rest := buffer + read;
    frames := [];
    var boundary := IndexOfBlank(rest);
    while boundary != -1
      invariant boundary == IndexOfBlank(rest)
      invariant frames + Frames(rest) == Frames(buffer + read)
      invariant Leftover(rest) == Leftover(buffer + read)
      decreases |rest|
    {
      frames := frames + [rest[..boundary]];
      rest := rest[boundary + 2..];
      boundary := IndexOfBlank(rest);
    }
  }

  lemma BlankInPrefix(s: string, t: string)
    requires !NoBlank(s)
    ensures IndexOfBlank(s + t) == IndexOfBlank(s)
  {
    var k := IndexOfBlank(s);
    forall i | 0 <= i < |s| - 1 ensures BlankAt(s + t, i) <==> BlankAt(s, i) {}
    assert BlankAt(s + t, k);
  }

  /** The first frame and the rest of the text. */
  lemma SplitFirst(s: string, k: nat)
    requires k + 2 <= |s| && IndexOfBlank(s) == k
    ensures Frames(s) == [s[..k]] + Frames(s[k + 2..]) && Leftover(s) == Leftover(s[k + 2..])
  {
  }

  lemma CutAppend(s: string, t: string, k: nat)
    requires k + 2 <= |s|
    ensures (s + t)[k + 2..] == s[k + 2..] + t && (s + t)[..k] == s[..k]
  {
  }

  /** Frames complete in a prefix stay; the leftover joins what follows. */
  lemma {:induction false} SplitAppend(s: string, t: string)
    ensures Frames(s + t) == Frames(s) + Frames(Leftover(s) + t)
    ensures Leftover(s + t) == Leftover(Leftover(s) + t)
    decreases |s|
  {
    var k := IndexOfBlank(s);
    if k != -1 {
      BlankInPrefix(s, t);
      CutAppend(s, t, k);
      SplitFirst(s, k);
      SplitFirst(s + t, k);
      SplitAppend(s[k + 2..], t);
    }
  }

  /**
    The outer loop: for every way of cutting the text into reads, the frames found and the
    leftover are those of splitting the whole text.
   */
  method StreamFrames(pieces: seq<string>) returns (frames: seq<string>, buffer: string)
    ensures frames == Frames(Concat(pieces)) && buffer == Leftover(Concat(pieces))
  {
    frames, buffer := [], "";
    for i := 0 to |pieces|
      invariant frames == Frames(Concat(pieces[..i])) && buffer == Leftover(Concat(pieces[..i]))
    {
      assert pieces[..i + 1][..i] == pieces[..i];
      SplitAppend(Concat(pieces[..i]), pieces[i]);
      var more, rest := Feed(buffer, pieces[i]);
      frames, buffer := frames + more, rest;
    }
    assert pieces[..|pieces|] == pieces;
  }

  // ----- what a split is -----

  function Joined(frames: seq<string>, rest: string): string {
    if frames == [] then rest else frames[0] + SEPARATOR + Joined(frames[1..], rest)
  }

  /** The frames and leftover rebuild the text, and every separator is the leftmost one possible. */
  ghost predicate IsSplit(s: string, frames: seq<string>, rest: string) {
    && s == Joined(frames, rest) && NoBlank(rest)
    && forall f :: f in frames ==> NoBlank(f + "\n")
  }

  lemma LeftmostBlank(f: string, tail: string)
    requires NoBlank(f + "\n")
    ensures IndexOfBlank(f + SEPARATOR + tail) == |f|
  {
    var s := f + SEPARATOR + tail;
    assert BlankAt(s, |f|);
    forall i | 0 <= i < |f| ensures !BlankAt(s, i) {
      assert !BlankAt(f + "\n", i);
      assert s[i] == (f + "\n")[i] && s[i + 1] == (f + "\n")[i + 1];
    }
  }

  lemma {:induction false} SplitIsSplit(s: string)
    ensures IsSplit(s, Frames(s), Leftover(s))
    decreases |s|
  {
    var k := IndexOfBlank(s);
    if k != -1 {
      SplitIsSplit(s[k + 2..]);
      assert s == s[..k] + SEPARATOR + s[k + 2..];
      var f := s[..k] + "\n";
      forall i | 0 <= i < |f| - 1 ensures !BlankAt(f, i) {
        assert !BlankAt(s, i) && f[i] == s[i] && f[i + 1] == s[i + 1];
      }
    }
  }

  lemma {:induction false} IsSplitUnique(s: string, frames: seq<string>, rest: string)
    requires IsSplit(s, frames, rest)
    ensures Frames(s) == frames && Leftover(s) == rest
    decreases |frames|
  {
    if frames != [] {
      var tail := Joined(frames[1..], rest);
      assert frames[0] in frames;
      LeftmostBlank(frames[0], tail);
      assert s[|frames[0]| + 2..] == tail && s[..|frames[0]|] == frames[0];
      IsSplitUnique(tail, frames[1..], rest);
      assert frames == [frames[0]] + frames[1..];
    }
  }

  /** Splitting is exactly this: one answer rebuilds the text with leftmost separators. */
  lemma SplitCharacterized(s: string, frames: seq<string>, rest: string)
    ensures (Frames(s) == frames && Leftover(s) == rest) <==> IsSplit(s, frames, rest)
  {
    SplitIsSplit(s);
    if IsSplit(s, frames, rest) { IsSplitUnique(s, frames, rest); }
  }

  // ----- the data of a frame -----

  function JoinLines(ls: seq<string>): string {
    if ls == [] then "" else if |ls| == 1 then ls[0] else ls[0] + "\n" + JoinLines(ls[1..])
  }

  /** Lines are joined by line feeds. */
  lemma JoinTwo(a: string, b: string, rest: seq<string>)
    ensures JoinLines([a]) == a && JoinLines([a, b] + rest) == a + "\n" + JoinLines([b] + rest)
  {
    assert ([a, b] + rest)[1..] == [b] + rest;
  }

  /** `split("\n")`. */
  function Lines(s: string): seq<string> { LinesFrom(s, 0) }

  function LinesFrom(s: string, i: nat): seq<string>
    requires i <= |s|
    decreases |s|, |s| - i
  {
    if i == |s| then [s]
    else if s[i] == '\n' then [s[..i]] + LinesFrom(s[i + 1..], 0)
    else LinesFrom(s, i + 1)
  }

  /** The characters `trimStart` removes. */
  predicate ScriptSpace(c: char) {
    var n := c as int;
    || 0x9 <= n <= 0xD || n == 0x20 || n == 0xA0 || n == 0x1680 || 0x2000 <= n <= 0x200A
    || n == 0x2028 || n == 0x2029 || n == 0x202F || n == 0x205F || n == 0x3000 || n == 0xFEFF
  }

  function TrimStart(s: string): string {
    if s != [] && ScriptSpace(s[0]) then TrimStart(s[1..]) else s
  }

  const DATA: string := "data:"

  /** The values of the `data:` lines, in order. */
  function DataLines(ls: seq<string>): seq<string> {
    if ls == [] then []
    else (if DATA <= ls[0] then [TrimStart(ls[0][|DATA|..])] else []) + DataLines(ls[1..])
  }

  /** What a frame hands to the event callback; nothing when it is empty. */
  function EventData(frame: string): string { JoinLines(DataLines(Lines(frame))) }

  predicate OneLine(s: string) { '\n' !in s }

  lemma {:induction false} LinesOfLine(s: string, i: nat, tail: string)
    requires OneLine(s) && i <= |s|
    ensures LinesFrom(s, i) == [s]
    ensures LinesFrom(s + "\n" + tail, i) == [s] + Lines(tail)
    decreases |s| - i
  {
    var t := s + "\n" + tail;
    if i < |s| {
      LinesOfLine(s, i + 1, tail);
      assert s[i] in s && t[i] == s[i];
    } else {
      assert t[..i] == s && t[i + 1..] == tail;
    }
  }

  lemma {:induction false} LinesJoined(ls: seq<string>)
    requires ls != [] && forall l :: l in ls ==> OneLine(l)
    ensures Lines(JoinLines(ls)) == ls
  {
    assert ls[0] in ls && ls == [ls[0]] + ls[1..];
    if |ls| == 1 {
      LinesOfLine(ls[0], 0, "");
    } else {
      LinesJoined(ls[1..]);
      LinesOfLine(ls[0], 0, JoinLines(ls[1..]));
    }
  }

  /** The lines of a frame that carries `payload`. */
  function DataFrame(payload: seq<string>): seq<string> {
    seq(|payload|, i requires 0 <= i < |payload| => "data: " + payload[i])
  }

  /** `trimStart` on every line. */
  function Trimmed(payload: seq<string>): seq<string> {
    seq(|payload|, i requires 0 <= i < |payload| => TrimStart(payload[i]))
  }

  /** A line of a frame: a data line with its value, or any other line, such as an event name or a comment. */
  datatype Line = Data(value: string) | Other(text: string)

  function Rendered(lines: seq<Line>): seq<string> {
    seq(|lines|, i requires 0 <= i < |lines| =>
      match lines[i] case Data(value) => "data: " + value case Other(text) => text)
  }

  function Values(lines: seq<Line>): seq<string> {
    if lines == [] then [] else (if lines[0].Data? then [lines[0].value] else []) + Values(lines[1..])
  }

  predicate Sendable(l: Line) {
    match l case Data(value) => OneLine(value) case Other(text) => OneLine(text) && !("data:" <= text)
  }

  lemma DataLine(value: string)
    ensures var l := "data: " + value; DATA <= l && TrimStart(l[|DATA|..]) == TrimStart(value)
  {
    var l := "data: " + value;
    assert l[..5] == DATA && l[5..] == " " + value && (" " + value)[1..] == value;
  }

  lemma {:induction false} RenderedLines(lines: seq<Line>)
    requires forall l :: l in lines ==> Sendable(l)
    ensures DataLines(Rendered(lines)) == Trimmed(Values(lines))
  {
    if lines != [] {
      var ls, rest := Rendered(lines), Values(lines[1..]);
      assert lines[0] in lines && ls[1..] == Rendered(lines[1..]);
      RenderedLines(lines[1..]);
      if lines[0].Data? {
        DataLine(lines[0].value);
        assert Trimmed([lines[0].value] + rest) == [TrimStart(lines[0].value)] + Trimmed(rest);
      }
    }
  }

  /**
    A frame hands over the values of its data lines, joined, each without its leading blanks;
    every other line in between is passed over.
   */
  lemma FrameDelivered(lines: seq<Line>)
    requires forall l :: l in lines ==> Sendable(l)
    ensures EventData(JoinLines(Rendered(lines))) == JoinLines(Trimmed(Values(lines)))
  {
    var ls := Rendered(lines);
    forall l | l in ls ensures OneLine(l) {
      var i :| 0 <= i < |ls| && ls[i] == l;
      assert lines[i] in lines;
    }
    RenderedLines(lines);
    if lines != [] { LinesJoined(ls); } else { assert Lines("") == [""] && !(DATA <= ""); }
  }

  function AllData(payload: seq<string>): seq<Line> {
    seq(|payload|, i requires 0 <= i < |payload| => Data(payload[i]))
  }

  lemma {:induction false} ValuesOfData(payload: seq<string>)
    ensures Values(AllData(payload)) == payload
  {
    if payload != [] {
      ValuesOfData(payload[1..]);
      assert AllData(payload)[1..] == AllData(payload[1..]);
      assert payload == [payload[0]] + payload[1..];
    }
  }

  /** Payload lines sent one per `data:` line are handed over joined, each without its leading blanks. */
  lemma DataDelivered(payload: seq<string>)
    requires forall l :: l in payload ==> OneLine(l)
    ensures EventData(JoinLines(DataFrame(payload))) == JoinLines(Trimmed(payload))
  {
    var lines := AllData(payload);
    forall l | l in lines ensures Sendable(l) {
      var i :| 0 <= i < |lines| && lines[i] == l;
      assert payload[i] in payload;
    }
    ValuesOfData(payload);
    assert Rendered(lines) == DataFrame(payload);
    FrameDelivered(lines);
  }

  /** The code points that count as blank, one by one. */
  lemma ScriptSpaceTable(c: char)
    ensures ScriptSpace(c) <==>
            (c as int) in {0x09, 0x0A, 0x0B, 0x0C, 0x0D, 0x20, 0xA0, 0x1680, 0x2000, 0x2001, 0x2002, 0x2003, 0x2004,
                           0x2005, 0x2006, 0x2007, 0x2008, 0x2009, 0x200A, 0x2028, 0x2029, 0x202F,
                           0x205F, 0x3000, 0xFEFF}
  {
  }

  /** `trimStart` drops exactly the blanks in front. */
  lemma {:induction false} TrimStartDrops(s: string) returns (front: string)
    ensures s == front + TrimStart(s) && (forall c :: c in front ==> ScriptSpace(c))
    ensures TrimStart(s) != [] ==> !ScriptSpace(TrimStart(s)[0])
  {
    if s != [] && ScriptSpace(s[0]) {
      front := TrimStartDrops(s[1..]);
      front := [s[0]] + front;
    } else {
      front := [];
    }
  }

  lemma TrimShrinks(s: string)
    ensures |TrimStart(s)| <= |s| && (|TrimStart(s)| == |s| ==> TrimStart(s) == s)
  {
  }

  lemma {:induction false} TrimmedShrinks(payload: seq<string>)
    ensures |JoinLines(Trimmed(payload))| <= |JoinLines(payload)|
    ensures |JoinLines(Trimmed(payload))| == |JoinLines(payload)| ==> Trimmed(payload) == payload
  {
    if payload != [] {
      var t := Trimmed(payload);
      TrimShrinks(payload[0]);
      assert t[1..] == Trimmed(payload[1..]);
      TrimmedShrinks(payload[1..]);
      assert t == [t[0]] + t[1..] && payload == [payload[0]] + payload[1..];
    }
  }

  /** So a payload is handed over unchanged exactly when no line of it starts with a blank. */
  lemma DataRoundTrip(payload: seq<string>)
    requires forall l :: l in payload ==> OneLine(l)
    ensures EventData(JoinLines(DataFrame(payload))) == JoinLines(payload) <==>
            forall l :: l in payload ==> TrimStart(l) == l
  {
    DataDelivered(payload);
    TrimmedShrinks(payload);
    if JoinLines(Trimmed(payload)) == JoinLines(payload) {
      forall l | l in payload ensures TrimStart(l) == l {
        var i :| 0 <= i < |payload| && payload[i] == l;
        assert Trimmed(payload)[i] == payload[i];
      }
    }
    if forall l :: l in payload ==> TrimStart(l) == l { assert Trimmed(payload) == payload; }
  }
}
