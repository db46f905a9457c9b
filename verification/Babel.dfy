/** Reading the output of the routing daemon: the terminator scan and the incremental reader. */
module Babel {
  import opened Bytes
  import opened Text

  /** The retries after which a read gives up. */
  const MAX_DEPTH: nat := 50

  // ------------------------------------------------------------------ lines and words

  /** The position of the first line feed, or the length. */
  function LineEnd(text: string): (n: nat)
    ensures n <= |text| && (n < |text| ==> text[n] == '\n') && forall i :: 0 <= i < n ==> text[i] != '\n'
  {
    Find(text, '\n')
  }

  function StripCr(line: string): string {
    if line != "" && line[|line| - 1] == '\r' then line[..|line| - 1] else line
  }

  /** The first line: a line feed ends it together with one carriage return before it. */
  function FirstLine(text: string): string {
    if LineEnd(text) < |text| then StripCr(text[..LineEnd(text)]) else text
  }

  function AfterLine(text: string): string {
    if LineEnd(text) < |text| then text[LineEnd(text) + 1..] else ""
  }

  /** `str::lines`. */
  function Lines(text: string): seq<string>
    decreases |text|
  {
    if text == "" then [] else [FirstLine(text)] + Lines(AfterLine(text))
  }

  function TrimStart(s: string): string {
    if s != "" && IsSpace(s[0]) then TrimStart(s[1..]) else s
  }

  function TrimEnd(s: string): string {
    if s != "" && IsSpace(s[|s| - 1]) then TrimEnd(s[..|s| - 1]) else s
  }

  function Trim(s: string): string { TrimEnd(TrimStart(s)) }

  // ------------------------------------------------------------------ the terminator scan

  datatype SyncResult = Good(text: string) | Failed(text: string) | NoTerminator(text: string)

  /** What a line means: success, failure, or more output. */
  function Verdict(line: string, text: string): SyncResult {
    var word := Trim(line);
    if word == "ok" then Good(text)
    else if word == "bad" || word == "no" then Failed(text)
    else NoTerminator(text)
  }

  function Scan(lines: seq<string>, before: string): SyncResult
    decreases |lines|
  {
    if lines == [] then NoTerminator(before)
    else
      var v := Verdict(lines[0], before + lines[0] + "\n");
      if v.NoTerminator? then Scan(lines[1..], v.text) else v
  }

  function Sync(text: string): SyncResult { Scan(Lines(text), "") }

  /** `read_babel_sync`. */
  method ReadBabelSync(output: string) returns (r: SyncResult)
    ensures r == Sync(output)
  {
    hide Trim;
    var lines := Lines(output);
    var ret := "";
    var i := 0;
    while i < |lines|
      invariant 0 <= i <= |lines| && Scan(lines[i..], ret) == Sync(output)
    {
      assert lines[i..][0] == lines[i] && lines[i..][1..] == lines[i + 1..];
      ret := ret + lines[i];
      ret := ret + "\n";
      var word := Trim(lines[i]);
      if word == "ok" {
        return Good(ret);
      }
      if word == "bad" || word == "no" {
        return Failed(ret);
      }
      i := i + 1;
    }
    return NoTerminator(ret);
  }

  // ------------------------------------------------------------------ the incremental reader

  /** One read of the stream: text and whether it filled the buffer, nothing yet, broken bytes, or an error. */
  datatype ReadEvent = Got(text: string, full: bool) | Blocked | NotUtf8 | Broken

  datatype BabelOutcome = Data(text: string) | Refused(text: string) | TimedOut | TcpError | IoError | Waiting

  /** The unused end of the buffer is zero bytes, which are trimmed off the text. */
  function TrimNul(s: string): string
    decreases |s|
  {
    if s != "" && s[0] == '\0' then TrimNul(s[1..])
    else if s != "" && s[|s| - 1] == '\0' then TrimNul(s[..|s| - 1])
    else s
  }

  function Finish(r: SyncResult): BabelOutcome {
    match r case Good(t) => Data(t) case Failed(t) => Refused(t) case NoTerminator(_) => Waiting
  }

  /** `read_babel`; `Waiting` means that the reads ran out before it returned. */
  function ReadBabel(script: seq<ReadEvent>, previous: string, depth: nat): BabelOutcome
    decreases |script|
  {
    if script == [] then Waiting
    else match script[0]
      case Blocked => ReadBabel(script[1..], previous, depth + 1)
      case Broken => IoError
      case NotUtf8 => TcpError
      case Got(text, full) =>
        var message := previous + TrimNul(text);
        if depth > MAX_DEPTH then TimedOut
        else if full then ReadBabel(script[1..], message, depth)
        else if Sync(message).NoTerminator? then ReadBabel(script[1..], message, depth + 1)
        else Finish(Sync(message))
  }

  class Stream {
    var script: seq<ReadEvent>
  }

  /** The recursion of the source on a stream that is consumed; it does not return while reads are missing. */
  method ReadBabelFrom(stream: Stream, previous: string, depth: nat) returns (r: BabelOutcome)
    modifies stream
    ensures r == ReadBabel(old(stream.script), previous, depth)
    decreases |stream.script|
  {
    hide Sync, TrimNul;
    if stream.script == [] {
      return Waiting;
    }
    var event := stream.script[0];
    stream.script := stream.script[1..];
    if event.Blocked? {
      r := ReadBabelFrom(stream, previous, depth + 1);
      return;
    }
    if !event.Got? {
      return if event.Broken? then IoError else TcpError;
    }
    var message := previous + TrimNul(event.text);
    var data := ReadBabelSync(message);
    if depth > MAX_DEPTH {
      r := TimedOut;
    } else if event.full {
      r := ReadBabelFrom(stream, message, depth);
    } else if data.NoTerminator? {
      r := ReadBabelFrom(stream, message, depth + 1);
    } else {
      r := Finish(data);
    }
  }

  // ------------------------------------------------------------------ cutting text

  /** The text after the last line feed. */
  function Partial(text: string): (p: string)
    ensures forall i :: 0 <= i < |p| ==> p[i] != '\n'
  {
    if text == "" || text[|text| - 1] == '\n' then "" else Partial(text[..|text| - 1]) + [text[|text| - 1]]
  }

  function Whole(text: string): string {
    if text == "" || text[|text| - 1] == '\n' then text else Whole(text[..|text| - 1])
  }

  predicate AtLineEnd(text: string) {
    text == "" || text[|text| - 1] == '\n'
  }

  lemma {:induction false} Split(text: string)
    ensures text == Whole(text) + Partial(text) && AtLineEnd(Whole(text))
  {
    if text != "" && text[|text| - 1] != '\n' {
      Split(text[..|text| - 1]);
    }
  }

  lemma {:induction false} LineEndUnique(text: string, n: nat)
    requires n < |text| && text[n] == '\n' && forall i :: 0 <= i < n ==> text[i] != '\n'
    ensures LineEnd(text) == n
  {
    var m := LineEnd(text);
    assert !(m < n);
  }

  lemma FirstLineKept(a: string, b: string)
    requires AtLineEnd(a) && a != ""
    ensures a + b != "" && FirstLine(a + b) == FirstLine(a) && AfterLine(a + b) == AfterLine(a) + b
    ensures |AfterLine(a)| < |a| && AtLineEnd(AfterLine(a))
  {
    LineEndKept(a, b);
    hide LineEnd;
    var n := LineEnd(a);
    assert (a + b)[..n] == a[..n] && (a + b)[n + 1..] == a[n + 1..] + b;
  }

  lemma LineEndKept(a: string, b: string)
    requires AtLineEnd(a) && a != ""
    ensures LineEnd(a) < |a| && LineEnd(a + b) == LineEnd(a)
  {
    hide LineEnd;
    var m, n := LineEnd(a + b), LineEnd(a);
    assert forall i :: 0 <= i < |a| ==> (a + b)[i] == a[i];
    assert !(n == |a|);
    assert !(m < n) && !(n < m);
  }

  /** Lines of text that ends at a line end are not changed by what follows. */
  lemma {:induction false} LinesAppend(a: string, b: string)
    requires AtLineEnd(a)
    ensures Lines(a + b) == Lines(a) + Lines(b)
    decreases |a|
  {
    if a == "" {
      assert a + b == b;
    } else {
      hide LineEnd, FirstLine, AfterLine, AtLineEnd;
      FirstLineKept(a, b);
      LinesAppend(AfterLine(a), b);
      Associate([FirstLine(a)], Lines(AfterLine(a)), Lines(b));
    }
  }

  lemma PartialLine(p: string)
    requires p != "" && forall i :: 0 <= i < |p| ==> p[i] != '\n'
    ensures Lines(p) == [p] && FirstLine(p) == p
  {
    assert LineEnd(p) == |p|;
  }

  /** A scan that has stopped does not see later lines; one that has not goes on from where it was. */
  lemma {:induction false} ScanAppend(a: seq<string>, b: seq<string>, before: string)
    ensures Scan(a + b, before) ==
      if Scan(a, before).NoTerminator? then Scan(b, Scan(a, before).text) else Scan(a, before)
    decreases |a|
  {
    hide Verdict;
    if a == [] {
      assert a + b == b;
    } else {
      assert (a + b)[1..] == a[1..] + b;
      var v := Verdict(a[0], before + a[0] + "\n");
      if v.NoTerminator? {
        ScanAppend(a[1..], b, v.text);
      }
    }
  }

  lemma {:induction false} ScanExtends(lines: seq<string>, before: string)
    ensures before <= Scan(lines, before).text
    ensures lines != [] ==> before + lines[0] + "\n" <= Scan(lines, before).text
    decreases |lines|
  {
    if lines != [] {
      var v := Verdict(lines[0], before + lines[0] + "\n");
      assert v.text == before + lines[0] + "\n";
      ScanExtends(lines[1..], v.text);
    }
  }

  /** Lines with their ends normalised to one line feed. */
  ghost function Normalised(lines: seq<string>): string {
    if lines == [] then "" else lines[0] + "\n" + Normalised(lines[1..])
  }

  predicate Terminates(line: string) {
    Trim(line) == "ok" || Trim(line) == "bad" || Trim(line) == "no"
  }

  /**
   * The scan returns the normalised text through the first terminator line, good exactly when that
   * line is `ok`; without such a line it returns all of the text.
   */
  lemma {:induction false} ScanMeans(lines: seq<string>, before: string) returns (k: nat)
    ensures k <= |lines| && forall i :: 0 <= i < k ==> !Terminates(lines[i])
    ensures k < |lines| ==> Terminates(lines[k])
    ensures Scan(lines, before) ==
      if k == |lines| then NoTerminator(before + Normalised(lines))
      else if Trim(lines[k]) == "ok" then Good(before + Normalised(lines[..k + 1]))
      else Failed(before + Normalised(lines[..k + 1]))
    decreases |lines|
  {
    hide Trim;
    if lines == [] {
      k := 0;
      assert before + "" == before;
    } else {
      var next := before + lines[0] + "\n";
      if Terminates(lines[0]) {
        k := 0;
        assert lines[..1] == [lines[0]] && Normalised([lines[0]]) == lines[0] + "\n" + "";
        assert before + (lines[0] + "\n" + "") == next;
      } else {
        var j := ScanMeans(lines[1..], next);
        k := j + 1;
        assert next + Normalised(lines[1..]) == before + (lines[0] + "\n" + Normalised(lines[1..]));
        if k < |lines| {
          assert lines[..k + 1][1..] == lines[1..][..j + 1];
          assert next + Normalised(lines[1..][..j + 1]) == before + (lines[0] + "\n" + Normalised(lines[1..][..j + 1]));
        }
      }
    }
  }

  // ------------------------------------------------------------------ stability

  /** Once a terminator was found in text cut at a line end, no extension changes the result. */
  lemma StableAtLineEnd(text: string, more: string)
    requires AtLineEnd(text) && !Sync(text).NoTerminator?
    ensures Sync(text + more) == Sync(text)
  {
    LinesAppend(text, more);
    ScanAppend(Lines(text), Lines(more), "");
  }

  /** No line of the text is a terminator. */
  predicate Unterminated(text: string) {
    forall i :: 0 <= i < |Lines(text)| ==> !Terminates(Lines(text)[i])
  }

  lemma UnterminatedIff(text: string)
    ensures Sync(text).NoTerminator? <==> Unterminated(text)
  {
    hide Lines, Scan, Trim, Terminates;
    var k := ScanMeans(Lines(text), "");
  }

  /**
   * The text has no terminator line so far, its unfinished last line is `ok`, `bad` or `no`, and what
   * follows makes another line of it.
   */
  predicate CutWord(text: string, more: string) {
    var p := Partial(text);
    Unterminated(Whole(text)) && p != "" && Terminates(p) && FirstLine(p + more) != p
  }

  /** A found terminator survives the rest of the output exactly when no word was cut. */
  lemma StableIff(text: string, more: string)
    requires !Unterminated(text)
    ensures Sync(text + more) == Sync(text) <==> !CutWord(text, more)
  {
    hide Scan, Lines, FirstLine, LineEnd, Unterminated, Trim;
    var w, p := Whole(text), Partial(text);
    Split(text);
    UnterminatedIff(text);
    UnterminatedIff(w);
    LinesAppend(w, p);
    LinesAppend(w, p + more);
    assert w + (p + more) == text + more;
    ScanAppend(Lines(w), Lines(p), "");
    ScanAppend(Lines(w), Lines(p + more), "");
    if Sync(w).NoTerminator? {
      NothingLeft(Sync(w).text);
      PartialLine(p);
      OneLine(p, Sync(w).text);
      StopsOnLine(p, p + more, Sync(w).text);
    }
  }

  lemma OneLine(p: string, before: string)
    ensures Scan([p], before).NoTerminator? <==> !Terminates(p)
  {
    hide Trim;
    assert [p][1..] == [];
  }

  lemma NothingLeft(before: string)
    ensures Scan(Lines(""), before).NoTerminator?
  {
  }

  lemma StopsOnLine(p: string, rest: string, before: string)
    requires p != "" && rest != "" && Lines(p) == [p] && !Scan([p], before).NoTerminator?
    requires forall i :: 0 <= i < |p| ==> p[i] != '\n'
    ensures Scan(Lines(rest), before) == Scan([p], before) <==> FirstLine(rest) == p
  {
    hide FirstLine, LineEnd;
    var q := FirstLine(rest);
    assert Lines(rest)[0] == q;
    if q == p {
      assert Lines(rest) == [p] + Lines(AfterLine(rest));
      ScanAppend([p], Lines(AfterLine(rest)), before);
    } else {
      FirstLineHasNoFeed(rest);
      ScanExtends(Lines(rest), before);
      assert Scan([p], before).text == before + p + "\n";
      if Scan(Lines(rest), before).text == before + p + "\n" {
        SameLine(p, q, before);
      }
    }
  }

  lemma FirstLineHasNoFeed(text: string)
    ensures forall i :: 0 <= i < |FirstLine(text)| ==> FirstLine(text)[i] != '\n'
  {
  }

  lemma SameLine(p: string, q: string, before: string)
    requires before + q + "\n" <= before + p + "\n"
    requires forall i :: 0 <= i < |p| ==> p[i] != '\n'
    requires forall i :: 0 <= i < |q| ==> q[i] != '\n'
    ensures p == q
  {
    var s, t := before + q + "\n", before + p + "\n";
    assert s == t[..|s|];
    assert s[|before| + |q|] == '\n' && t[|before| + |q|] == '\n';
    assert forall i :: 0 <= i < |p| ==> t[|before| + i] == p[i];
    forall i | 0 <= i < |q| ensures q[i] == p[i] {
      assert s[|before| + i] == q[i] && t[|before| + i] == p[i];
    }
  }

  // ------------------------------------------------------------------ chunk independence

  ghost function Texts(script: seq<ReadEvent>): string {
    if script == [] then "" else (if script[0].Got? then TrimNul(script[0].text) else "") + Texts(script[1..])
  }

  /** Reads that deliver text or nothing yet. */
  ghost predicate Plain(script: seq<ReadEvent>) {
    forall i :: 0 <= i < |script| ==> script[i].Blocked? || script[i].Got?
  }

  ghost predicate AllNul(s: string) { forall i :: 0 <= i < |s| ==> s[i] == '\0' }

  /** Only the zero bytes around the text are taken off. */
  lemma {:induction false} TrimNulMeans(front: string, text: string, back: string)
    requires AllNul(front) && AllNul(back)
    requires text != "" && text[0] != '\0' && text[|text| - 1] != '\0'
    ensures TrimNul(front + text + back) == text
    decreases |front| + |back|
  {
    var s := front + text + back;
    if front != "" {
      TrimNulMeans(front[1..], text, back);
      assert s[0] == '\0' && s[1..] == front[1..] + text + back;
    } else if back != "" {
      TrimNulMeans(front, text, back[..|back| - 1]);
      assert s[0] == text[0] && s[|s| - 1] == '\0' && s[..|s| - 1] == front + text + back[..|back| - 1];
    } else {
      assert s == text;
    }
  }

  /**
   * A read that does not fill the buffer ends inside a line that so far looks like a terminator, or the
   * terminator came with a read that does and nothing more is read.
   */
  ghost predicate Misreads(previous: string, script: seq<ReadEvent>)
    decreases |script|
  {
    if script == [] then !Unterminated(previous)
    else if !script[0].Got? then Misreads(previous, script[1..])
    else
      var message := previous + TrimNul(script[0].text);
      if script[0].full || Unterminated(message) then Misreads(message, script[1..])
      else CutWord(message, Texts(script[1..]))
  }

  /**
   * Reading piece by piece, within the retry limit, equals one read of the whole output exactly when no
   * read that leaves room in the buffer ends inside a word that would be a terminator by itself, and the
   * terminator does not come with a last read that fills it. What full reads bring is kept.
   */
  lemma {:induction false} ChunksIff(script: seq<ReadEvent>, previous: string, depth: nat)
    requires Plain(script) && depth + |script| <= MAX_DEPTH + 1
    ensures ReadBabel(script, previous, depth) == Finish(Sync(previous + Texts(script))) <==>
      !Misreads(previous, script)
    decreases |script|
  {
    hide Sync, CutWord, TrimNul, Unterminated;
    UnterminatedIff(previous);
    if script == [] {
      assert previous + "" == previous;
    } else {
      var later := Texts(script[1..]);
      if script[0].Blocked? {
        assert previous + ("" + later) == previous + later;
        ChunksIff(script[1..], previous, depth + 1);
      } else {
        var message := previous + TrimNul(script[0].text);
        Associate(previous, TrimNul(script[0].text), later);
        UnterminatedIff(message);
        if script[0].full {
          ChunksIff(script[1..], message, depth);
        } else if Unterminated(message) {
          ChunksIff(script[1..], message, depth + 1);
        } else {
          StableIff(message, later);
          FinishInjective(Sync(message), Sync(message + later));
        }
      }
    }
  }

  lemma FinishInjective(a: SyncResult, b: SyncResult)
    requires !a.NoTerminator?
    ensures Finish(a) == Finish(b) <==> a == b
  {
  }

  /** Reads that end at line ends and leave room in the buffer misread nothing. */
  lemma {:induction false} LineEndsAreSafe(script: seq<ReadEvent>, previous: string)
    requires AtLineEnd(previous) && Unterminated(previous)
    requires forall i :: 0 <= i < |script| ==> script[i].Got? ==>
      AtLineEnd(TrimNul(script[i].text)) && !script[i].full
    ensures !Misreads(previous, script)
    decreases |script|
  {
    hide Unterminated, Terminates, TrimNul;
    if script != [] {
      if !script[0].Got? {
        LineEndsAreSafe(script[1..], previous);
      } else if Unterminated(previous + TrimNul(script[0].text)) {
        LineEndsAreSafe(script[1..], previous + TrimNul(script[0].text));
      }
    }
  }

  lemma {:induction false} BlockedWaits(script: seq<ReadEvent>, previous: string, depth: nat)
    requires forall i :: 0 <= i < |script| ==> script[i].Blocked?
    ensures ReadBabel(script, previous, depth) == Waiting
    decreases |script|
  {
    hide Sync, TrimNul;
    if script != [] {
      BlockedWaits(script[1..], previous, depth + 1);
    }
  }

  /**
   * An answer whose last read fills the buffer is never returned, even when it is complete: the reader
   * asks for more before it looks for a terminator, and blocked reads are tried again without a limit.
   */
  lemma FullAnswerIsLost(text: string, blocked: seq<ReadEvent>, previous: string, depth: nat)
    requires depth <= MAX_DEPTH && forall i :: 0 <= i < |blocked| ==> blocked[i].Blocked?
    ensures ReadBabel([Got(text, true)] + blocked, previous, depth) == Waiting
  {
    hide Sync, TrimNul;
    var script := [Got(text, true)] + blocked;
    assert script[1..] == blocked;
    BlockedWaits(blocked, previous + TrimNul(text), depth);
  }

  /** The first `k` reads bring nothing, or text that with all before it has no terminator, and leave room. */
  ghost predicate Harmless(script: seq<ReadEvent>, previous: string, k: nat)
    requires k <= |script|
    decreases k
  {
    k == 0 ||
    (script[0].Blocked? && Harmless(script[1..], previous, k - 1)) ||
    (script[0].Got? && !script[0].full && Unterminated(previous + TrimNul(script[0].text)) &&
     Harmless(script[1..], previous + TrimNul(script[0].text), k - 1))
  }

  lemma {:induction false} AfterHarmless(script: seq<ReadEvent>, previous: string, depth: nat, k: nat)
    requires k < |script| && Harmless(script, previous, k) && depth + k <= 51
    ensures script[k].Got? && depth + k == 51 ==> ReadBabel(script, previous, depth) == TimedOut
    ensures script[k].Broken? ==> ReadBabel(script, previous, depth) == IoError
    ensures script[k].NotUtf8? ==> ReadBabel(script, previous, depth) == TcpError
    decreases k
  {
    hide Sync, TrimNul, Unterminated;
    if k > 0 {
      if script[0].Blocked? {
        AfterHarmless(script[1..], previous, depth + 1, k - 1);
      } else {
        UnterminatedIff(previous + TrimNul(script[0].text));
        AfterHarmless(script[1..], previous + TrimNul(script[0].text), depth + 1, k - 1);
      }
    }
  }

  /** After 51 reads without an answer the next text is not looked at: the reader has timed out. */
  lemma GivesUp(script: seq<ReadEvent>, previous: string)
    requires |script| > 51 && Harmless(script, previous, 51) && script[51].Got?
    ensures ReadBabel(script, previous, 0) == TimedOut
  {
    AfterHarmless(script, previous, 0, 51);
  }

  /** A cut word is a real failure: an answer is taken from a line that has only begun. */
  lemma CutWordExample()
    ensures ReadBabel([Got("ok", false), Got("x\n", false)], "", 0) == Data("ok\n")
    ensures Sync("okx\n") == NoTerminator("okx\n")
  {
    OkAlone();
    OkWithMore();
    var script := [Got("ok", false), Got("x\n", false)];
    assert TrimNul("ok") == "ok" && "" + "ok" == "ok";
    assert script[0] == Got("ok", false);
  }

  lemma OkAlone()
    ensures Sync("ok") == Good("ok\n")
  {
    assert LineEnd("ok") == 2;
    assert Lines("ok") == ["ok"] + Lines("");
    assert TrimStart("ok") == "ok" && TrimEnd("ok") == "ok";
    assert "" + "ok" + "\n" == "ok\n";
  }

  lemma OkWithMore()
    ensures Sync("okx\n") == NoTerminator("okx\n")
  {
    LineEndUnique("okx\n", 3);
    assert "okx\n"[..3] == "okx" && "okx\n"[4..] == "";
    assert Lines("okx\n") == ["okx"] + Lines("");
    assert TrimStart("okx") == "okx" && TrimEnd("okx") == "okx";
    assert "" + "okx" + "\n" == "okx\n";
  }
}
