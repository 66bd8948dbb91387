/** Replaying a line-oriented log, for any record format that reads back what it writes. */
module Replay {
  import opened Values

  datatype Entry = Entry(sequence: int, op: string, payload: Document)

  /** What one terminated line is to `replay`. A Fatal line raises wherever it stands; a Malformed one raises
      an exception the loop catches. A Sequenced one passed its checks; its operation and payload are read only
      after the sequence check, and are None when reading them raises such an exception. */
  datatype Decoded = Fatal | Malformed | Sequenced(sequence: int, body: Option<(string, Document)>)

  function DecodedEntry(e: Entry): Decoded {
    Sequenced(e.sequence, Some((e.op, e.payload)))
  }

  /** A record format: the text of a record, and the reading of a line that ends in a newline. */
  datatype Codec = Codec(encode: Entry -> string, decode: string -> Decoded)

  ghost predicate ReadsBack(c: Codec) {
    forall e: Entry :: '\n' !in c.encode(e) && c.decode(c.encode(e) + "\n") == DecodedEntry(e)
  }

  /** A record written onto the remains of another one is a malformed line. */
  ghost predicate RejectsGlued(c: Codec) {
    forall t: string, torn: Entry, e: Entry :: t != "" && t <= c.encode(torn) ==>
      c.decode(t + (c.encode(e) + "\n")) == Malformed
  }

  function Line(c: Codec, e: Entry): string {
    c.encode(e) + "\n"
  }

  // ---------- the log as lines ----------

  /** The first line with its newline, or all of the text when it has none. */
  function FirstLine(s: string): (line: string)
    requires s != ""
    ensures line != "" && line <= s
  {
    if s[0] == '\n' || |s| == 1 then s[..1] else [s[0]] + FirstLine(s[1..])
  }

  /** `readlines()`. */
  function Lines(s: string): seq<string> {
    if s == "" then [] else [FirstLine(s)] + Lines(s[|FirstLine(s)|..])
  }

  predicate Terminated(line: string) {
    line != "" && line[|line| - 1] == '\n'
  }

  lemma {:induction false} FirstLineOf(line: string, rest: string)
    requires '\n' !in line
    ensures FirstLine(line + "\n" + rest) == line + "\n"
  {
    var s := line + "\n" + rest;
    if line != "" {
      assert s[1..] == line[1..] + "\n" + rest;
      FirstLineOf(line[1..], rest);
    }
  }

  lemma {:induction false} FirstLineUnterminated(t: string)
    requires '\n' !in t && t != ""
    ensures FirstLine(t) == t
  {
    if |t| > 1 { FirstLineUnterminated(t[1..]); }
  }

  lemma LinesCons(line: string, rest: string)
    requires '\n' !in line
    ensures Lines(line + "\n" + rest) == [line + "\n"] + Lines(rest)
  {
    FirstLineOf(line, rest);
    assert (line + "\n" + rest)[|line + "\n"|..] == rest;
  }

  lemma LinesUnterminated(t: string)
    requires '\n' !in t
    ensures Lines(t) == if t == "" then [] else [t]
  {
    if t != "" {
      FirstLineUnterminated(t);
      assert t[|t|..] == "";
    }
  }

  // ---------- replay ----------

  /** How a replay ends: normally, with the records given to `apply`, the last sequence
      and the number of ignored records, or by raising after some records were applied. */
  datatype Outcome =
    | Replayed(applied: seq<Entry>, last: int, torn: nat)
    | Raised(applied: seq<Entry>)

  function Preceded(es: seq<Entry>, outcome: Outcome): Outcome {
    outcome.(applied := es + outcome.applied)
  }

  /** The line raises an exception that the loop catches. */
  predicate Damaged(c: Codec, line: string, last: int) {
    var d := c.decode(line);
    d.Malformed? || (d.Sequenced? && d.sequence > last && d.body.None?)
  }

  /** The line's record is applied. */
  predicate Accepts(c: Codec, line: string, last: int, e: Entry) {
    Terminated(line) && e.sequence > last && c.decode(line) == DecodedEntry(e)
  }

  function ReplayLines(c: Codec, lines: seq<string>, last: int): Outcome
    decreases |lines|
  {
    if lines == [] then Replayed([], last, 0)
    else if !Terminated(lines[0]) then Replayed([], last, 1)
    else if Damaged(c, lines[0], last) then
      if |lines| == 1 then Replayed([], last, 1) else Raised([])
    else
      match c.decode(lines[0])
      case Sequenced(n, Some(body)) =>
        if n <= last then Raised([]) else Preceded([Entry(n, body.0, body.1)], ReplayLines(c, lines[1..], n))
      case _ => Raised([])
  }

  function ReplayText(c: Codec, text: string): Outcome {
    ReplayLines(c, Lines(text), 0)
  }

  lemma PrecededAssociates(es: seq<Entry>, e: Entry, outcome: Outcome)
    ensures Preceded(es, Preceded([e], outcome)) == Preceded(es + [e], outcome)
  {
    assert es + ([e] + outcome.applied) == es + [e] + outcome.applied;
  }

  // ---------- replay of what was appended ----------

  predicate Increasing(es: seq<Entry>, last: int) {
    es == [] || (es[0].sequence > last && Increasing(es[1..], es[0].sequence))
  }

  function LastSeq(es: seq<Entry>, last: int): int {
    if es == [] then last else es[|es| - 1].sequence
  }

  function LogOf(c: Codec, es: seq<Entry>): string {
    if es == [] then "" else Line(c, es[0]) + LogOf(c, es[1..])
  }

  lemma {:induction false} LogOfAppend(c: Codec, a: seq<Entry>, b: seq<Entry>)
    ensures LogOf(c, a + b) == LogOf(c, a) + LogOf(c, b)
  {
    if a == [] {
      assert a + b == b;
    } else {
      assert (a + b)[1..] == a[1..] + b;
      LogOfAppend(c, a[1..], b);
    }
  }

  function LogLines(c: Codec, es: seq<Entry>): seq<string> {
    if es == [] then [] else [Line(c, es[0])] + LogLines(c, es[1..])
  }

  lemma {:induction false} LinesOfLog(c: Codec, es: seq<Entry>, rest: string)
    requires ReadsBack(c)
    ensures Lines(LogOf(c, es) + rest) == LogLines(c, es) + Lines(rest)
    decreases |es|
  {
    if es == [] {
      assert LogOf(c, es) + rest == rest;
    } else {
      var tail := LogOf(c, es[1..]) + rest;
      assert LogOf(c, es) + rest == c.encode(es[0]) + "\n" + tail;
      LinesCons(c.encode(es[0]), tail);
      LinesOfLog(c, es[1..], rest);
    }
  }

  lemma {:induction false} ReplayLogLines(c: Codec, es: seq<Entry>, rest: seq<string>, last: int)
    requires ReadsBack(c) && Increasing(es, last)
    ensures ReplayLines(c, LogLines(c, es) + rest, last) == Preceded(es, ReplayLines(c, rest, LastSeq(es, last)))
    decreases |es|
  {
    if es == [] {
      assert LogLines(c, es) + rest == rest;
    } else {
      var e := es[0];
      var lines := LogLines(c, es) + rest;
      assert lines[0] == Line(c, e) && lines[1..] == LogLines(c, es[1..]) + rest;
      assert c.decode(lines[0]) == DecodedEntry(e);
      ReplayLogLines(c, es[1..], rest, e.sequence);
      PrecededTwice(e, es, ReplayLines(c, rest, LastSeq(es, last)));
    }
  }

  lemma PrecededTwice(e: Entry, es: seq<Entry>, outcome: Outcome)
    requires es != [] && es[0] == e
    ensures Preceded([e], Preceded(es[1..], outcome)) == Preceded(es, outcome)
  {
    assert [e] + (es[1..] + outcome.applied) == es + outcome.applied;
  }

  /** Replay reads a log record by record and then whatever text follows it. */
  lemma ReplayThrough(c: Codec, es: seq<Entry>, rest: string, last: int)
    requires ReadsBack(c) && Increasing(es, last)
    ensures ReplayLines(c, Lines(LogOf(c, es) + rest), last)
      == Preceded(es, ReplayLines(c, Lines(rest), LastSeq(es, last)))
  {
    LinesOfLog(c, es, rest);
    ReplayLogLines(c, es, Lines(rest), last);
  }

  /** A log followed by an unterminated fragment replays the whole log and reports the fragment. */
  lemma {:induction false} ReplayLogAndFragment(c: Codec, es: seq<Entry>, t: string)
    requires ReadsBack(c) && Increasing(es, 0) && '\n' !in t
    ensures ReplayText(c, LogOf(c, es) + t) == Replayed(es, LastSeq(es, 0), if t == "" then 0 else 1)
  {
    ReplayThrough(c, es, t, 0);
    LinesUnterminated(t);
    assert es + [] == es;
  }

  /** How many lines of the log end within its first n bytes. */
  function Survivors(c: Codec, es: seq<Entry>, n: nat): (k: nat)
    ensures k <= |es|
  {
    if es == [] || n < |Line(c, es[0])| then 0 else 1 + Survivors(c, es[1..], n - |Line(c, es[0])|)
  }

  /** A log cut at any byte is a shorter log and a fragment of the next line. */
  lemma {:induction false} CutLog(c: Codec, es: seq<Entry>, n: nat) returns (t: string)
    requires ReadsBack(c) && n <= |LogOf(c, es)|
    ensures var k := Survivors(c, es, n);
      LogOf(c, es)[..n] == LogOf(c, es[..k]) + t
      && '\n' !in t
      && (k == |es| ==> t == "")
      && (k < |es| ==> t <= c.encode(es[k]))
    decreases |es|
  {
    hide LogOf, ReadsBack, Line;
    LogOfNone(c);
    if es == [] {
      t := "";
      assert es[..0] == [];
    } else if n < |Line(c, es[0])| {
      CutInFirst(c, es, n);
      t := c.encode(es[0])[..n];
    } else {
      LogOfFirst(c, es);
      var m := n - |Line(c, es[0])|;
      t := CutLog(c, es[1..], m);
      CutAfterFirst(c, es, m, Survivors(c, es[1..], m), t);
    }
  }

  lemma LogOfNone(c: Codec)
    ensures LogOf(c, []) == ""
  {}

  lemma LogOfFirst(c: Codec, es: seq<Entry>)
    requires es != []
    ensures |LogOf(c, es)| == |Line(c, es[0])| + |LogOf(c, es[1..])|
  {}

  lemma CutInFirst(c: Codec, es: seq<Entry>, n: nat)
    requires ReadsBack(c) && es != [] && n < |Line(c, es[0])|
    ensures n <= |c.encode(es[0])| && n <= |LogOf(c, es)|
    ensures LogOf(c, es)[..n] == c.encode(es[0])[..n] == LogOf(c, es[..0]) + c.encode(es[0])[..n]
    ensures '\n' !in c.encode(es[0])[..n]
  {
    assert LogOf(c, es[..0]) == "";
  }

  lemma CutAfterFirst(c: Codec, es: seq<Entry>, m: nat, k: nat, t: string)
    requires es != [] && m <= |LogOf(c, es[1..])| && k < |es|
    requires LogOf(c, es[1..])[..m] == LogOf(c, es[1..][..k]) + t
    ensures |Line(c, es[0])| + m <= |LogOf(c, es)|
    ensures LogOf(c, es)[..|Line(c, es[0])| + m] == LogOf(c, es[..k + 1]) + t
  {
    var first, kept := Line(c, es[0]), LogOf(c, es[1..][..k]);
    assert es[..k + 1][1..] == es[1..][..k];
    assert LogOf(c, es[..k + 1]) == first + kept && LogOf(c, es) == first + LogOf(c, es[1..]);
    hide LogOf, Line;
    CutConcatenation(first, LogOf(c, es[1..]), m);
    Reassociate(first, kept, t);
  }

  lemma CutConcatenation(a: string, b: string, m: nat)
    requires m <= |b|
    ensures (a + b)[..|a| + m] == a + b[..m]
  {}

  lemma Reassociate(a: string, b: string, d: string)
    ensures a + (b + d) == (a + b) + d
  {}

  lemma {:induction false} IncreasingPrefix(es: seq<Entry>, last: int, k: nat)
    requires Increasing(es, last) && k <= |es|
    ensures Increasing(es[..k], last)
    decreases k
  {
    if k > 0 {
      IncreasingPrefix(es[1..], es[0].sequence, k - 1);
      assert es[..k][1..] == es[1..][..k - 1];
    }
  }

  /** Byte-prefix theorem: a log cut at any byte never raises. It replays, in order, exactly the records
      whose newline survived, and reports one torn record exactly when the cut falls inside a line. */
  lemma {:induction false} BytePrefixTheorem(c: Codec, es: seq<Entry>, n: nat)
    requires ReadsBack(c) && Increasing(es, 0) && n <= |LogOf(c, es)|
    ensures var k := Survivors(c, es, n);
      |LogOf(c, es[..k])| <= n
      && (k < |es| ==> n < |LogOf(c, es[..k + 1])|)
      && ReplayText(c, LogOf(c, es)[..n])
        == Replayed(es[..k], LastSeq(es[..k], 0), if n == |LogOf(c, es[..k])| then 0 else 1)
  {
    var k := Survivors(c, es, n);
    var t := CutLog(c, es, n);
    IncreasingPrefix(es, 0, k);
    ReplayLogAndFragment(c, es[..k], t);
    if k < |es| {
      assert es[..k + 1] == es[..k] + [es[k]];
      LogOfAppend(c, es[..k], [es[k]]);
      LogOfOne(c, es[k]);
    }
  }

  // ---------- replay of arbitrary bytes ----------

  /** The first |es| lines are accepted as the records es. */
  predicate AcceptsAll(c: Codec, lines: seq<string>, last: int, es: seq<Entry>)
    decreases |es|
  {
    es == [] || (lines != [] && Accepts(c, lines[0], last, es[0])
                 && AcceptsAll(c, lines[1..], es[0].sequence, es[1..]))
  }

  /** The only line replay may ignore: an unterminated or damaged last one. */
  predicate Ignorable(c: Codec, line: string, last: int) {
    !Terminated(line) || Damaged(c, line, last)
  }

  predicate EndsCleanly(c: Codec, lines: seq<string>, last: int, es: seq<Entry>) {
    AcceptsAll(c, lines, last, es)
    && (|lines| == |es|
        || (|lines| == |es| + 1 && Ignorable(c, lines[|es|], LastSeq(es, last))))
  }

  /** Only the last line of a file can lack its newline. */
  lemma {:induction false} LinesTerminated(s: string)
    ensures forall i | 0 <= i < |Lines(s)| - 1 :: Terminated(Lines(s)[i])
    decreases |s|
  {
    if s != "" {
      var line := FirstLine(s);
      if line != s { FirstLineTerminated(s); }
      LinesTerminated(s[|line|..]);
    }
  }

  lemma {:induction false} FirstLineTerminated(s: string)
    requires s != "" && FirstLine(s) != s
    ensures Terminated(FirstLine(s))
  {
    if s[0] != '\n' { FirstLineTerminated(s[1..]); }
  }

  lemma {:induction false} ReplaySound(c: Codec, lines: seq<string>, last: int)
    requires forall i | 0 <= i < |lines| - 1 :: Terminated(lines[i])
    requires ReplayLines(c, lines, last).Replayed?
    ensures var o := ReplayLines(c, lines, last);
      EndsCleanly(c, lines, last, o.applied) && Increasing(o.applied, last)
      && |o.applied| + o.torn == |lines| && o.last == LastSeq(o.applied, last)
    decreases |lines|
  {
    if lines != [] && Terminated(lines[0]) && !Damaged(c, lines[0], last) {
      var e := ReplayStep(c, lines, last);
      hide ReplayLines, Accepts;
      assert forall i | 0 <= i < |lines[1..]| - 1 :: lines[1..][i] == lines[i + 1];
      ReplaySound(c, lines[1..], e.sequence);
      var o, inner := ReplayLines(c, lines, last), ReplayLines(c, lines[1..], e.sequence);
      assert o.applied[1..] == inner.applied;
    }
  }

  lemma ReplayStep(c: Codec, lines: seq<string>, last: int) returns (e: Entry)
    requires lines != [] && Terminated(lines[0]) && !Damaged(c, lines[0], last) && ReplayLines(c, lines, last).Replayed?
    ensures Accepts(c, lines[0], last, e)
    ensures ReplayLines(c, lines, last) == Preceded([e], ReplayLines(c, lines[1..], e.sequence))
  {
    var d := c.decode(lines[0]);
    e := Entry(d.sequence, d.body.value.0, d.body.value.1);
  }

  lemma {:induction false} ReplayComplete(c: Codec, lines: seq<string>, last: int, es: seq<Entry>)
    requires EndsCleanly(c, lines, last, es)
    ensures ReplayLines(c, lines, last) == Replayed(es, LastSeq(es, last), |lines| - |es|)
    decreases |lines|
  {
    if es != [] {
      ReplayComplete(c, lines[1..], es[0].sequence, es[1..]);
      assert [es[0]] + es[1..] == es;
    }
  }

  /** On any bytes whatever, replay succeeds exactly when every line but possibly the last is a record in
      sequence, and the last is one too or is torn or malformed. It then accounts for every line, ignores at most
      the last one, applies strictly increasing sequences and returns the last of them. */
  lemma {:induction false} ReplayOutcome(c: Codec, file: string)
    ensures ReplayText(c, file).Replayed? <==> exists es :: EndsCleanly(c, Lines(file), 0, es)
    ensures var o := ReplayText(c, file);
      o.Replayed? ==>
        && EndsCleanly(c, Lines(file), 0, o.applied) && Increasing(o.applied, 0)
        && |o.applied| + o.torn == |Lines(file)| && o.torn <= 1 && o.last == LastSeq(o.applied, 0)
  {
    LinesTerminated(file);
    if ReplayText(c, file).Replayed? {
      ReplaySound(c, Lines(file), 0);
    }
    if es :| EndsCleanly(c, Lines(file), 0, es) {
      ReplayComplete(c, Lines(file), 0, es);
      assert ReplayLines(c, Lines(file), 0).Replayed?;
      assert ReplayText(c, file).Replayed?;
      assert exists fs :: EndsCleanly(c, Lines(file), 0, fs);
    }
  }

  /** A complete line that fails its checks raises even when it is the last one. */
  lemma {:induction false} FatalLineRaises(c: Codec, es: seq<Entry>, text: string, rest: string)
    requires ReadsBack(c) && Increasing(es, 0) && '\n' !in text && c.decode(text + "\n") == Fatal
    ensures ReplayText(c, LogOf(c, es) + (text + "\n" + rest)) == Raised(es)
  {
    ReplayThrough(c, es, text + "\n" + rest, 0);
    LinesCons(text, rest);
    assert es + [] == es;
  }

  // ---------- appending after a torn tail ----------

  /** Replay does not remove a torn tail, so the next append is glued to it. The record survives exactly
      when there was no tail; otherwise it is dropped without an error, and one more append makes every later
      replay raise. */
  lemma {:induction false} AppendAfterTail(c: Codec, es: seq<Entry>, t: string, torn: Entry, e: Entry, next: Entry)
    requires ReadsBack(c) && RejectsGlued(c)
    requires Increasing(es + [e], 0) && t <= c.encode(torn)
    ensures var file := LogOf(c, es) + (t + Line(c, e));
      (ReplayText(c, file).applied == es + [e] <==> t == "")
      && (t != "" ==>
            && ReplayText(c, file) == Replayed(es, LastSeq(es, 0), 1)
            && ReplayText(c, file + Line(c, next)) == Raised(es))
  {
    hide Lines, ReplayLines, LogOf;
    var file := LogOf(c, es) + (t + Line(c, e));
    if t == "" {
      LogOfAppend(c, es, [e]);
      LogOfOne(c, e);
      assert t + Line(c, e) == Line(c, e);
      assert file == LogOf(c, es + [e]) + "";
      ReplayLogAndFragment(c, es + [e], "");
    } else {
      assert (es + [e])[..|es|] == es;
      IncreasingPrefix(es + [e], 0, |es|);
      GluedLine(c, t, torn, e);
      var glued := t + c.encode(e);
      ReplayGlued(c, es, glued, "");
      ReplayGlued(c, es, glued, Line(c, next));
      Regroup(LogOf(c, es), t, c.encode(e), Line(c, next));
    }
  }

  lemma {:induction false} IncreasingAppend(es: seq<Entry>, e: Entry, last: int)
    requires Increasing(es, last) && e.sequence > LastSeq(es, last)
    ensures Increasing(es + [e], last)
    decreases |es|
  {
    if es != [] {
      assert (es + [e])[1..] == es[1..] + [e];
      IncreasingAppend(es[1..], e, es[0].sequence);
    }
  }

  lemma {:induction false} NotAmongEarlier(es: seq<Entry>, e: Entry, last: int)
    requires Increasing(es + [e], last)
    ensures e !in es && e.sequence > last && Increasing(es, last) && LastSeq(es, last) < e.sequence
    decreases |es|
  {
    if es == [] {
      assert es + [e] == [e];
    } else {
      assert (es + [e])[1..] == es[1..] + [e];
      NotAmongEarlier(es[1..], e, es[0].sequence);
    }
  }

  /** An append that raises may leave any part of its record. If the process goes on, the next record is recovered
      exactly when nothing was left, or all of the record and its sequence is less; after all of it with a sequence
      that is not less replay raises, and after anything else the next record is dropped silently. */
  lemma AppendAfterFailure(c: Codec, es: seq<Entry>, t: string, failed: Entry, e: Entry)
    requires ReadsBack(c) && RejectsGlued(c)
    requires Increasing(es + [e], 0) && failed.sequence > LastSeq(es, 0) && t <= Line(c, failed)
    ensures var o := ReplayText(c, LogOf(c, es) + (t + Line(c, e)));
      (o.Replayed? && e in o.applied <==> t == "" || (t == Line(c, failed) && failed.sequence < e.sequence))
      && (t == Line(c, failed) ==>
            if failed.sequence < e.sequence then o.applied == es + [failed] + [e] else o == Raised(es + [failed]))
      && (t != "" && t != Line(c, failed) ==> o == Replayed(es, LastSeq(es, 0), 1))
  {
    hide Lines, ReplayLines, LogOf;
    NotAmongEarlier(es, e, 0);
    if t == Line(c, failed) {
      AfterWholeRecord(c, es, failed, e);
    } else {
      assert t <= c.encode(failed);
      AppendAfterTail(c, es, t, failed, e, e);
      if t == "" { AppendWhole(c, es, e); }
    }
  }

  lemma AppendWhole(c: Codec, es: seq<Entry>, e: Entry)
    requires ReadsBack(c) && Increasing(es + [e], 0)
    ensures ReplayText(c, LogOf(c, es) + ("" + Line(c, e))) == Replayed(es + [e], LastSeq(es + [e], 0), 0)
  {
    hide Lines, ReplayLines, LogOf;
    LogOfAppend(c, es, [e]);
    LogOfOne(c, e);
    ReplayLogAndFragment(c, es + [e], "");
    assert LogOf(c, es + [e]) + "" == LogOf(c, es) + ("" + Line(c, e));
  }

  lemma AfterWholeRecord(c: Codec, es: seq<Entry>, failed: Entry, e: Entry)
    requires ReadsBack(c) && Increasing(es, 0) && failed.sequence > LastSeq(es, 0)
    requires e !in es && e.sequence > LastSeq(es, 0)
    ensures var o := ReplayText(c, LogOf(c, es) + (Line(c, failed) + Line(c, e)));
      (failed.sequence < e.sequence ==>
        o.Replayed? && o.applied == es + [failed] + [e] && e in o.applied)
      && (failed.sequence >= e.sequence ==> o == Raised(es + [failed]))
  {
    hide Lines, LogOf;
    var log := es + [failed];
    IncreasingAppend(es, failed, 0);
    LogOfAppend(c, es, [failed]);
    LogOfOne(c, failed);
    assert LogOf(c, es) + (Line(c, failed) + Line(c, e)) == LogOf(c, log) + Line(c, e);
    LastSeqAppend(es, failed, 0);
    if failed.sequence < e.sequence {
      IncreasingAppend(log, e, 0);
      AppendWhole(c, log, e);
      assert "" + Line(c, e) == Line(c, e);
      assert (log + [e])[|log|] == e;
    } else {
      ReplayThrough(c, log, Line(c, e), 0);
      LinesCons(c.encode(e), "");
      assert Line(c, e) == c.encode(e) + "\n" + "";
      LinesUnterminated("");
      assert log + [] == log;
    }
  }

  lemma {:induction false} LastSeqAppend(es: seq<Entry>, e: Entry, last: int)
    ensures LastSeq(es + [e], last) == e.sequence
  {}

  lemma Regroup(log: string, t: string, record: string, rest: string)
    ensures log + (t + (record + "\n")) == log + (t + record + "\n" + "")
    ensures log + (t + (record + "\n")) + rest == log + (t + record + "\n" + rest)
  {
    assert t + (record + "\n") == t + record + "\n";
    assert t + record + "\n" + "" == t + record + "\n";
    assert log + (t + record + "\n") + rest == log + (t + record + "\n" + rest);
  }

  lemma LogOfOne(c: Codec, e: Entry)
    ensures LogOf(c, [e]) == Line(c, e)
  {
    assert LogOf(c, [e]) == Line(c, e) + "";
  }

  lemma GluedLine(c: Codec, t: string, torn: Entry, e: Entry)
    requires ReadsBack(c) && RejectsGlued(c) && t != "" && t <= c.encode(torn)
    ensures '\n' !in t + c.encode(e) && c.decode(t + c.encode(e) + "\n") == Malformed
  {
    assert t + (c.encode(e) + "\n") == t + c.encode(e) + "\n";
    assert forall x <- t :: x in c.encode(torn);
  }

  lemma ReplayGlued(c: Codec, es: seq<Entry>, glued: string, rest: string)
    requires ReadsBack(c) && Increasing(es, 0) && '\n' !in glued && c.decode(glued + "\n") == Malformed
    ensures ReplayText(c, LogOf(c, es) + (glued + "\n" + rest))
      == if rest == "" then Replayed(es, LastSeq(es, 0), 1) else Raised(es)
  {
    ReplayThrough(c, es, glued + "\n" + rest, 0);
    LinesCons(glued, rest);
    assert es + [] == es;
  }
}
