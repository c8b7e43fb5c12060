/**
 Redaction of secret inputs (secretinput.go:70-75, 142-172): the line-buffered writer the
 runner streams provider output through, and what is left in the lines it emits.
 */
module Redaction {
  import opened Strings

  const MARK := "(redacted)"

  const BUFFER_LIMIT := 0x100000

  /** redactString: every value replaced, one after the other. */
  function Redact(s: string, values: seq<string>): string
    requires forall i :: 0 <= i < |values| ==> values[i] != ""
    decreases |values|
  {
    if values == [] then s else Redact(ReplaceAll(s, values[0], MARK), values[1..])
  }

  method RedactString(s: string, values: seq<string>) returns (r: string)
    requires forall i :: 0 <= i < |values| ==> values[i] != ""
    ensures r == Redact(s, values)
  {
    r := s;
    assert values[0..] == values;
    for i := 0 to |values|
      invariant Redact(s, values) == Redact(r, values[i..])
    {
      assert values[i..][0] == values[i] && values[i..][1..] == values[i + 1..];
      r := ReplaceAll(r, values[i], MARK);
    }
  }

  // ---------------------------------------------------------------- lines

  /** The complete lines of a text, each with its newline. */
  function Complete(s: string): seq<string>
    decreases |s|
  {
    var i := IndexOf(s, "\n");
    if i < 0 then [] else [s[..i + 1]] + Complete(s[i + 1..])
  }

  /** The text after the last newline. */
  function Partial(s: string): string
    decreases |s|
  {
    var i := IndexOf(s, "\n");
    if i < 0 then s else Partial(s[i + 1..])
  }

  /** All the lines: the last one may lack its newline. */
  function Lines(s: string): seq<string> {
    Complete(s) + if Partial(s) == "" then [] else [Partial(s)]
  }

  function RedactAll(lines: seq<string>, values: seq<string>): (r: seq<string>)
    requires forall i :: 0 <= i < |values| ==> values[i] != ""
    ensures |r| == |lines| && forall i :: 0 <= i < |lines| ==> r[i] == Redact(lines[i], values)
  {
    seq(|lines|, i requires 0 <= i < |lines| => Redact(lines[i], values))
  }

  lemma RedactAppend(a: seq<string>, b: seq<string>, values: seq<string>)
    requires forall i :: 0 <= i < |values| ==> values[i] != ""
    ensures RedactAll(a + b, values) == RedactAll(a, values) + RedactAll(b, values)
  {
  }

  lemma RedactOne(line: string, values: seq<string>)
    requires forall i :: 0 <= i < |values| ==> values[i] != ""
    ensures RedactAll([line], values) == [Redact(line, values)] && RedactAll([], values) == []
  {
  }

  lemma FirstLine(s: string)
    ensures var i := IndexOf(s, "\n");
            if i < 0 then Complete(s) == [] && Partial(s) == s
            else Complete(s) == [s[..i + 1]] + Complete(s[i + 1..]) && Partial(s) == Partial(s[i + 1..])
  {
  }

  // ---------------------------------------------------------------- the writer

  /** What one Write leaves: the lines emitted, and the buffer; a huge partial line is flushed. */
  datatype Written = Written(emitted: seq<string>, buf: string)

  function Write(buf: string, p: string, values: seq<string>): Written
    requires forall i :: 0 <= i < |values| ==> values[i] != ""
  {
    var rest := Partial(buf + p);
    var lines := RedactAll(Complete(buf + p), values);
    if |rest| > BUFFER_LIMIT then Written(lines + [Redact(rest, values)], "") else Written(lines, rest)
  }

  /** A write never leaves more than 1 MiB buffered; what it leaves is the partial line, unless that was too long. */
  lemma BufferBounded(buf: string, p: string, values: seq<string>)
    requires forall i :: 0 <= i < |values| ==> values[i] != ""
    ensures var w := Write(buf, p, values);
            |w.buf| <= 0x100000 && w.buf == (if |Partial(buf + p)| <= 0x100000 then Partial(buf + p) else "") &&
            |w.emitted| == |Complete(buf + p)| + if |Partial(buf + p)| <= 0x100000 then 0 else 1
  {
    hide Complete, Partial, Redact;
  }

  /** What follows the first `n` complete lines. */
  function Remaining(s: string, n: nat): string
    requires n <= |Complete(s)|
    decreases n
  {
    if n == 0 then s else Remaining(s[IndexOf(s, "\n") + 1..], n - 1)
  }

  lemma {:induction false} RemainingStep(s: string, n: nat)
    requires n < |Complete(s)|
    ensures var i := IndexOf(Remaining(s, n), "\n"); i >= 0 && Remaining(s, n + 1) == Remaining(s, n)[i + 1..]
    decreases n
  {
    hide IndexOf;
    FirstLine(s);
    if n > 0 { RemainingStep(s[IndexOf(s, "\n") + 1..], n - 1); }
  }

  /** What one Write leaves when the destination accepts `room` writes and then fails: the line it fails on is gone, the others stay buffered. */
  function WriteSome(buf: string, p: string, values: seq<string>, room: nat): (Written, bool)
    requires forall i :: 0 <= i < |values| ==> values[i] != ""
  {
    var lines, rest := Complete(buf + p), Partial(buf + p);
    if room < |lines| then (Written(RedactAll(lines[..room], values), Remaining(buf + p, room + 1)), false)
    else if |rest| > BUFFER_LIMIT && room == |lines| then (Written(RedactAll(lines, values), ""), false)
    else (Write(buf, p, values), true)
  }

  lemma {:induction false} LinesFit(s: string)
    ensures |Complete(s)| <= |s|
    decreases |s|
  {
    hide IndexOf;
    FirstLine(s);
    if IndexOf(s, "\n") >= 0 { LinesFit(s[IndexOf(s, "\n") + 1..]); }
  }

  /** A destination that does not fail gets everything. */
  lemma EnoughRoom(buf: string, p: string, values: seq<string>)
    requires forall i :: 0 <= i < |values| ==> values[i] != ""
    ensures WriteSome(buf, p, values, |buf + p| + 1) == (Write(buf, p, values), true)
  {
    LinesFit(buf + p);
  }

  class RedactingWriter {
    const values: seq<string>
    var buf: string
    var dst: seq<string>

    constructor (values: seq<string>)
      ensures this.values == values && buf == "" && dst == []
    {
      this.values, buf, dst := values, "", [];
    }

    /** Empty values are never among the secrets. */
    ghost predicate Valid() {
      forall i :: 0 <= i < |values| ==> values[i] != ""
    }

    /** Write (secretinput.go:142); the destination accepts `room` writes before one fails. */
    method Push(p: string, room: nat) returns (ok: bool)
      requires Valid()
      modifies this
      ensures var (w, accepted) := WriteSome(old(buf), p, values, room);
              dst == old(dst) + w.emitted && buf == w.buf && ok == accepted
    {
      hide Redact, RedactAll, Complete, Partial, Remaining;
      buf := buf + p;
      var left;
      ok, left := Drain(room);
      if ok && |buf| > BUFFER_LIMIT {
        ok := Flush(left > 0);
      }
    }

    /** The loop of Write: every complete line is taken from the buffer and emitted, redacted, until a write fails. */
    method Drain(room: nat) returns (ok: bool, left: nat)
      requires Valid()
      modifies this
      ensures ok <==> |Complete(old(buf))| <= room
      ensures ok ==> left == room - |Complete(old(buf))| && dst == old(dst) + RedactAll(Complete(old(buf)), values) && buf == Partial(old(buf))
      ensures !ok ==> dst == old(dst) + RedactAll(Complete(old(buf))[..room], values) && buf == Remaining(old(buf), room + 1)
    {
      hide Redact, RedactAll, Complete, Partial, IndexOf;
      ghost var all, lines: seq<string> := Complete(buf), [];
      left := room;
      RedactOne("", values);
      assert dst + [] == dst && [] + Complete(buf) == Complete(buf);
      while true
        invariant dst == old(dst) + RedactAll(lines, values) && |lines| + left == room
        invariant lines + Complete(buf) == all && Partial(buf) == Partial(old(buf)) && buf == Remaining(old(buf), |lines|)
        decreases |buf|
      {
        var i := IndexOf(buf, "\n");
        FirstLine(buf);
        if i < 0 {
          assert lines + [] == lines;
          return true, left;
        }
        var line := buf[..i + 1];
        var tail := buf[i + 1..];
        assert lines + ([line] + Complete(tail)) == (lines + [line]) + Complete(tail);
        RemainingStep(old(buf), |lines|);
        buf := tail;
        var r := RedactString(line, values);
        if left == 0 {
          assert all[..room] == lines;
          return false, left;
        }
        RedactAppend(lines, [line], values);
        RedactOne(line, values);
        assert old(dst) + RedactAll(lines, values) + [r] == old(dst) + (RedactAll(lines, values) + [r]);
        dst, lines, left := dst + [r], lines + [line], left - 1;
      }
    }

    /** Flush (secretinput.go:164): the buffer is empty afterwards even if the destination fails. */
    method Flush(accepted: bool) returns (ok: bool)
      requires Valid()
      modifies this
      ensures buf == "" && ok == (old(buf) == "" || accepted)
      ensures dst == old(dst) + if old(buf) == "" || !accepted then [] else [Redact(old(buf), values)]
    {
      if buf == "" {
        return true;
      }
      var rest := buf;
      buf := "";
      var r := RedactString(rest, values);
      if !accepted {
        return false;
      }
      dst := dst + [r];
      return true;
    }
  }

  // ---------------------------------------------------------------- chunks

  function Flat(chunks: seq<string>): string {
    if chunks == [] then "" else chunks[0] + Flat(chunks[1..])
  }

  /** The chunks written one after the other. */
  function WriteAll(buf: string, chunks: seq<string>, values: seq<string>): Written
    requires forall i :: 0 <= i < |values| ==> values[i] != ""
    decreases |chunks|
  {
    if chunks == [] then Written([], buf)
    else
      var w := Write(buf, chunks[0], values);
      var more := WriteAll(w.buf, chunks[1..], values);
      Written(w.emitted + more.emitted, more.buf)
  }

  /** What a stream of chunks has emitted after the final Flush. */
  function Emitted(chunks: seq<string>, values: seq<string>): seq<string>
    requires forall i :: 0 <= i < |values| ==> values[i] != ""
  {
    var w := WriteAll("", chunks, values);
    w.emitted + if w.buf == "" then [] else [Redact(w.buf, values)]
  }

  method WriteChunks(w: RedactingWriter, chunks: seq<string>)
    requires w.Valid() && w.buf == "" && w.dst == []
    modifies w
    ensures w.dst == Emitted(chunks, w.values) && w.buf == ""
  {
    hide Write, WriteSome, Redact;
    assert chunks[0..] == chunks;
    for i := 0 to |chunks|
      invariant WriteAll("", chunks, w.values) ==
                Written(w.dst + WriteAll(w.buf, chunks[i..], w.values).emitted, WriteAll(w.buf, chunks[i..], w.values).buf)
    {
      assert chunks[i..][0] == chunks[i] && chunks[i..][1..] == chunks[i + 1..];
      ghost var before, now := w.dst, Write(w.buf, chunks[i], w.values);
      EnoughRoom(w.buf, chunks[i], w.values);
      var ok := w.Push(chunks[i], |w.buf + chunks[i]| + 1);
      assert before + (now.emitted + WriteAll(now.buf, chunks[i + 1..], w.values).emitted)
          == before + now.emitted + WriteAll(now.buf, chunks[i + 1..], w.values).emitted;
    }
    assert chunks[|chunks|..] == [] && w.dst + [] == w.dst;
    var ok := w.Flush(true);
  }

  /** Lines of a concatenation: those of the first text, then those of what it left over and the second. */
  lemma {:induction false} LinesOfConcat(a: string, b: string)
    ensures Complete(a + b) == Complete(a) + Complete(Partial(a) + b) && Partial(a + b) == Partial(Partial(a) + b)
    decreases |a|
  {
    hide Complete, Partial;
    var i := IndexOf(a, "\n");
    FirstLine(a);
    if i < 0 {
      assert [] + Complete(a + b) == Complete(a + b);
    } else {
      IndexKept(a, b);
      hide IndexOf;
      FirstLine(a + b);
      var line, tail := a[..i + 1], a[i + 1..];
      assert (a + b)[..i + 1] == line && (a + b)[i + 1..] == tail + b;
      LinesOfConcat(tail, b);
      assert [line] + (Complete(tail) + Complete(Partial(tail) + b)) == [line] + Complete(tail) + Complete(Partial(tail) + b);
    }
  }

  /** The first newline of a text stays the first when more follows. */
  lemma {:induction false} IndexKept(a: string, b: string)
    requires IndexOf(a, "\n") >= 0
    ensures IndexOf(a + b, "\n") == IndexOf(a, "\n")
  {
    assert a != "";
    assert (a + b)[0] == a[0] && (a + b)[1..] == a[1..] + b;
    assert "\n" <= a <==> a[0] == '\n';
    assert "\n" <= a + b <==> a[0] == '\n';
    if a[0] != '\n' { IndexKept(a[1..], b); }
  }

  /** No line is longer than the buffer limit, its newline not counted. */
  ghost predicate ShortLines(s: string) {
    forall i, j :: 0 <= i <= j <= |s| && '\n' !in s[i..j] ==> j - i <= 0x100000
  }

  lemma {:induction false} PartialIsTail(s: string)
    ensures |Partial(s)| <= |s| && Partial(s) == s[|s| - |Partial(s)|..] && '\n' !in Partial(s)
    decreases |s|
  {
    var i := IndexOf(s, "\n");
    IndexOfFirst(s, "\n");
    if i < 0 {
      forall k | 0 <= k < |s| ensures s[k] != '\n' {
        assert !("\n" <= s[k..]) && s[k..][0] == s[k];
      }
    } else {
      PartialIsTail(s[i + 1..]);
      assert s[i + 1..][|s| - i - 1 - |Partial(s)|..] == s[|s| - |Partial(s)|..];
    }
  }

  /** What is buffered of a text with short lines never reaches the limit. */
  lemma PartialShort(s: string, more: string)
    requires ShortLines(s + more)
    ensures |Partial(s)| <= BUFFER_LIMIT
  {
    PartialIsTail(s);
    var i := |s| - |Partial(s)|;
    assert (s + more)[i..|s|] == Partial(s);
  }

  lemma {:induction false} WriteAllLines(done: string, chunks: seq<string>, values: seq<string>)
    requires forall i :: 0 <= i < |values| ==> values[i] != ""
    requires ShortLines(done + Flat(chunks))
    ensures var w := WriteAll(Partial(done), chunks, values);
            RedactAll(Complete(done), values) + w.emitted == RedactAll(Complete(done + Flat(chunks)), values) && w.buf == Partial(done + Flat(chunks))
    decreases |chunks|
  {
    hide Redact, RedactAll, Complete, Partial, ShortLines;
    var emitted := RedactAll(Complete(done), values);
    if chunks == [] {
      assert done + "" == done;
      assert emitted + [] == emitted;
    } else {
      var next := done + chunks[0];
      var rest := Flat(chunks[1..]);
      assert done + Flat(chunks) == next + rest;
      PartialShort(next, rest);
      LinesOfConcat(done, chunks[0]);
      WriteAllLines(next, chunks[1..], values);
      var lines := Complete(Partial(done) + chunks[0]);
      RedactAppend(Complete(done), lines, values);
      var more := WriteAll(Partial(next), chunks[1..], values).emitted;
      assert emitted + RedactAll(lines, values) + more == emitted + (RedactAll(lines, values) + more);
    }
  }

  /** Chunking does not matter: a stream with short lines comes out as its lines, each redacted, however it was split. */
  lemma ChunksDoNotMatter(chunks: seq<string>, values: seq<string>)
    requires forall i :: 0 <= i < |values| ==> values[i] != ""
    requires ShortLines(Flat(chunks))
    ensures Emitted(chunks, values) == RedactAll(Lines(Flat(chunks)), values)
  {
    hide Redact, RedactAll, ShortLines, Complete, Partial, WriteAll, Flat;
    var s := Flat(chunks);
    assert "" + s == s;
    FirstLine("");
    assert IndexOf("", "\n") < 0;
    WriteAllLines("", chunks, values);
    var w := WriteAll("", chunks, values);
    RedactOne(Partial(s), values);
    assert [] + w.emitted == w.emitted;
    RedactAppend(Complete(s), if Partial(s) == "" then [] else [Partial(s)], values);
  }

  // ---------------------------------------------------------------- nothing left

  /** A value that the mark can neither contain nor help to form. */
  predicate Guarded(v: string) {
    v != "" && '(' !in v && ')' !in v && '\n' !in v && !Contains("redacted", v)
  }

  /** An occurrence does not span a character that the pattern lacks. */
  lemma {:induction false} ContainsAcross(t: string, c: char, x: string, v: string)
    requires v != "" && c !in v
    ensures Contains(t + [c] + x, v) <==> Contains(t, v) || Contains(x, v)
    decreases |t|
  {
    var s := t + [c] + x;
    assert s[|t|] == c;
    if t == "" {
      assert s == [c] + x;
      PrefixOfCons(v, c, x);
      assert s[1..] == x;
      assert Contains("", v) <==> v <= "";
    } else {
      assert s[1..] == t[1..] + [c] + x;
      if v <= t {
        assert s[..|v|] == t[..|v|];
      } else {
        assert s == t + ([c] + x);
        MissBefore(t, [c] + x, v);
      }
      ContainsAcross(t[1..], c, x, v);
    }
  }

  /** In a text with marks in it, a guarded value is in a piece between them. */
  lemma {:induction false} ContainsInPiece(ps: seq<string>, v: string)
    requires ps != [] && Guarded(v)
    ensures Contains(Join(ps, MARK), v) <==> exists i :: 0 <= i < |ps| && Contains(ps[i], v)
    decreases |ps|
  {
    if |ps| > 1 {
      var rest := Join(ps[1..], MARK);
      assert ps[0] + MARK + rest == ps[0] + ['('] + ("redacted" + [')'] + rest);
      ContainsAcross(ps[0], '(', "redacted" + [')'] + rest, v);
      ContainsAcross("redacted", ')', rest, v);
      ContainsInPiece(ps[1..], v);
      assert (exists i :: 0 <= i < |ps[1..]| && Contains(ps[1..][i], v)) <==> exists i :: 1 <= i < |ps| && Contains(ps[i], v) by {
        assert forall i :: 1 <= i < |ps| ==> ps[i] == ps[1..][i - 1];
      }
    }
  }

  /** The pieces between the occurrences that ReplaceAll finds. */
  function Cut(s: string, v: string): (ps: seq<string>)
    requires v != ""
    ensures ps != []
    decreases |s|
  {
    if s == "" then [""]
    else if v <= s then [""] + Cut(s[|v|..], v)
    else
      var ps := Cut(s[1..], v);
      [[s[0]] + ps[0]] + ps[1..]
  }

  lemma {:induction false} CutJoins(s: string, v: string)
    requires v != ""
    ensures ReplaceAll(s, v, MARK) == Join(Cut(s, v), MARK)
    decreases |s|
  {
    if s != "" {
      if v <= s {
        CutJoins(s[|v|..], v);
        assert "" + MARK + Join(Cut(s[|v|..], v), MARK) == MARK + Join(Cut(s[|v|..], v), MARK);
      } else {
        CutJoins(s[1..], v);
        JoinHead(s[0], Cut(s[1..], v));
      }
    }
  }

  lemma JoinHead(c: char, ps: seq<string>)
    requires ps != []
    ensures Join([[c] + ps[0]] + ps[1..], MARK) == [c] + Join(ps, MARK)
  {
    var qs := [[c] + ps[0]] + ps[1..];
    if |ps| > 1 {
      assert qs[1..] == ps[1..];
      assert [c] + ps[0] + MARK + Join(ps[1..], MARK) == [c] + (ps[0] + MARK + Join(ps[1..], MARK));
    }
  }

  /** The first piece is a prefix of the text; no piece has the value, and each has only what the text has. */
  lemma {:induction false} CutPieces(s: string, v: string)
    requires v != ""
    ensures var ps := Cut(s, v); ps[0] <= s && forall i :: 0 <= i < |ps| ==> !Contains(ps[i], v)
    decreases |s|
  {
    if s != "" {
      if v <= s {
        CutPieces(s[|v|..], v);
      } else {
        CutPieces(s[1..], v);
        var ps := Cut(s[1..], v);
        var head := [s[0]] + ps[0];
        assert head <= s && head[1..] == ps[0];
        PrefixTransitive(v, head, s);
      }
    }
  }

  lemma PrefixTransitive(v: string, p: string, s: string)
    ensures v <= p && p <= s ==> v <= s
  {
  }

  lemma {:induction false} CutAddsNothing(s: string, v: string, u: string)
    requires v != "" && u != ""
    ensures forall i :: 0 <= i < |Cut(s, v)| && Contains(Cut(s, v)[i], u) ==> Contains(s, u)
    decreases |s|
  {
    if s != "" {
      if v <= s {
        CutAddsNothing(s[|v|..], v, u);
        if Contains(s[|v|..], u) { TailContains(s, |v|, u); }
        assert !Contains("", u);
      } else {
        CutAddsNothing(s[1..], v, u);
        CutPieces(s, v);
        if Contains(Cut(s, v)[0], u) { PrefixContains(s, Cut(s, v)[0], u); }
      }
    }
  }

  lemma {:induction false} TailContains(s: string, k: nat, u: string)
    requires k <= |s| && Contains(s[k..], u)
    ensures Contains(s, u)
    decreases k
  {
    if k == 0 {
      assert s[0..] == s;
    } else {
      assert s[1..][k - 1..] == s[k..];
      TailContains(s[1..], k - 1, u);
    }
  }

  lemma {:induction false} PrefixContains(s: string, p: string, u: string)
    requires p <= s && Contains(p, u)
    ensures Contains(s, u)
    decreases |p|
  {
    if u <= p {
      assert s[..|u|] == p[..|u|];
    } else {
      assert p[1..] <= s[1..];
      PrefixContains(s[1..], p[1..], u);
    }
  }

  // ---------------------------------------------------------------- across marks

  /** Replacing works on each piece by itself: a guarded value cannot touch a mark. */
  lemma {:induction false} ReplacePieces(ps: seq<string>, v: string)
    requires ps != [] && Guarded(v)
    ensures ReplaceAll(Join(ps, MARK), v, MARK) == Join(CutAll(ps, v), MARK)
    decreases |ps|
  {
    if |ps| == 1 {
      CutJoins(ps[0], v);
      assert CutAll(ps[1..], v) == [] && Cut(ps[0], v) + [] == Cut(ps[0], v);
    } else {
      var rest := Join(ps[1..], MARK);
      assert ps[0] + MARK + rest == ps[0] + (MARK + rest);
      ReplaceAcross(ps[0], MARK + rest, v, MARK);
      ReplaceMark(rest, v);
      CutJoins(ps[0], v);
      ReplacePieces(ps[1..], v);
      JoinAppend(Cut(ps[0], v), CutAll(ps[1..], v));
      Associative(Join(Cut(ps[0], v), MARK), MARK, Join(CutAll(ps[1..], v), MARK));
    }
  }

  /** The pieces of all the pieces. */
  function CutAll(ps: seq<string>, v: string): (qs: seq<string>)
    requires v != ""
    ensures ps != [] ==> qs != []
  {
    if ps == [] then [] else Cut(ps[0], v) + CutAll(ps[1..], v)
  }

  lemma ReplaceMark(rest: string, v: string)
    requires Guarded(v)
    ensures ReplaceAll(MARK + rest, v, MARK) == MARK + ReplaceAll(rest, v, MARK)
  {
    hide Contains, ReplaceAll;
    var r := ReplaceAll(rest, v, MARK);
    assert MARK + rest == ['('] + ("redacted" + ([')'] + rest));
    assert MARK + r == ['('] + ("redacted" + ([')'] + r));
    ReplaceBetween("redacted", rest, v, MARK);
  }

  /** Text between two characters the value lacks, and without the value, is passed over. */
  lemma ReplaceBetween(word: string, rest: string, v: string, rep: string)
    requires v != "" && '(' !in v && ')' !in v && !Contains(word, v)
    ensures ReplaceAll(['('] + (word + ([')'] + rest)), v, rep) == ['('] + (word + ([')'] + ReplaceAll(rest, v, rep)))
  {
    hide Contains, ReplaceAll;
    PrefixOfCons(v, '(', word + ([')'] + rest));
    ReplaceMiss('(', word + ([')'] + rest), v, rep);
    ReplaceAcross(word, [')'] + rest, v, rep);
    ReplaceAbsent(word, v, rep);
    PrefixOfCons(v, ')', rest);
    ReplaceMiss(')', rest, v, rep);
  }

  /** Nothing to replace, nothing changed. */
  lemma {:induction false} ReplaceAbsent(s: string, v: string, rep: string)
    requires v != "" && !Contains(s, v)
    ensures ReplaceAll(s, v, rep) == s
    decreases |s|
  {
    if s != "" {
      ReplaceAbsent(s[1..], v, rep);
      assert s == [s[0]] + s[1..];
    }
  }

  lemma {:induction false} JoinAppend(ps: seq<string>, qs: seq<string>)
    requires ps != [] && qs != []
    ensures Join(ps + qs, MARK) == Join(ps, MARK) + MARK + Join(qs, MARK)
    decreases |ps|
  {
    assert (ps + qs)[0] == ps[0];
    if |ps| == 1 {
      assert (ps + qs)[1..] == qs;
    } else {
      assert (ps + qs)[1..] == ps[1..] + qs;
      JoinAppend(ps[1..], qs);
      assert ps[0] + MARK + (Join(ps[1..], MARK) + MARK + Join(qs, MARK)) == ps[0] + MARK + Join(ps[1..], MARK) + MARK + Join(qs, MARK);
    }
  }

  /** Cutting removes the value from every piece and brings in no other. */
  lemma {:induction false} CutAllPieces(ps: seq<string>, v: string, u: string)
    requires v != "" && u != ""
    ensures forall i :: 0 <= i < |CutAll(ps, v)| ==> !Contains(CutAll(ps, v)[i], v)
    ensures (forall i :: 0 <= i < |ps| ==> !Contains(ps[i], u)) ==> forall i :: 0 <= i < |CutAll(ps, v)| ==> !Contains(CutAll(ps, v)[i], u)
    decreases |ps|
  {
    if ps != [] {
      CutPieces(ps[0], v);
      CutAddsNothing(ps[0], v, u);
      CutAllPieces(ps[1..], v, u);
      assert forall i :: 0 <= i < |ps[1..]| ==> ps[1..][i] == ps[i + 1];
    }
  }

  /** The pieces have none of the values. */
  ghost predicate FreeOf(ps: seq<string>, gone: seq<string>) {
    forall i, k :: 0 <= i < |ps| && 0 <= k < |gone| ==> !Contains(ps[i], gone[k])
  }

  /** The pieces with the words between them. */
  function Weave(ps: seq<string>, ws: seq<string>): string
    requires |ps| == |ws| + 1
  {
    if ws == [] then ps[0] else ps[0] + ws[0] + Weave(ps[1..], ws[1..])
  }

  lemma {:induction false} WeaveAppend(ps: seq<string>, ws: seq<string>, w: string, qs: seq<string>, us: seq<string>)
    requires |ps| == |ws| + 1 && |qs| == |us| + 1
    ensures Weave(ps + qs, ws + [w] + us) == Weave(ps, ws) + w + Weave(qs, us)
    decreases |ws|
  {
    var all, words := ps + qs, ws + [w] + us;
    assert all[0] == ps[0];
    if ws == [] {
      assert all[1..] == qs && words[0] == w && words[1..] == us;
    } else {
      assert all[1..] == ps[1..] + qs && words[0] == ws[0] && words[1..] == ws[1..] + [w] + us;
      WeaveAppend(ps[1..], ws[1..], w, qs, us);
      Associative(ps[0] + ws[0], Weave(ps[1..], ws[1..]), w);
      Associative(ps[0] + ws[0], Weave(ps[1..], ws[1..]) + w, Weave(qs, us));
    }
  }

  /** The text is its pieces with the value between them. */
  lemma {:induction false} CutWeaves(s: string, v: string) returns (ws: seq<string>)
    requires v != ""
    ensures |Cut(s, v)| == |ws| + 1 && Weave(Cut(s, v), ws) == s && forall w :: w in ws ==> w == v
    decreases |s|
  {
    hide Weave;
    if s == "" {
      ws := [];
      WeaveOne("");
    } else if v <= s {
      var ps := Cut(s[|v|..], v);
      ws := CutWeaves(s[|v|..], v);
      WeaveOne("");
      WeaveAppend([""], [], v, ps, ws);
      assert [] + [v] + ws == [v] + ws;
      assert "" + v + s[|v|..] == s;
      ws := [v] + ws;
    } else {
      ws := CutWeaves(s[1..], v);
      WeaveHead(s[0], Cut(s[1..], v), ws);
    }
  }

  lemma WeaveOne(t: string)
    ensures Weave([t], []) == t
  {
  }

  lemma WeaveHead(c: char, ps: seq<string>, ws: seq<string>)
    requires |ps| == |ws| + 1
    ensures Weave([[c] + ps[0]] + ps[1..], ws) == [c] + Weave(ps, ws)
  {
    var qs := [[c] + ps[0]] + ps[1..];
    assert qs[1..] == ps[1..];
    if ws != [] {
      var rest := Weave(ps[1..], ws[1..]);
      assert [c] + ps[0] + ws[0] + rest == [c] + (ps[0] + ws[0] + rest);
    }
  }

  /** Cutting the pieces further keeps the text. */
  lemma {:induction false} CutAllWeaves(ps: seq<string>, ws: seq<string>, v: string) returns (us: seq<string>)
    requires |ps| == |ws| + 1 && v != ""
    ensures |CutAll(ps, v)| == |us| + 1 && Weave(CutAll(ps, v), us) == Weave(ps, ws)
    ensures forall u :: u in us ==> u in ws || u == v
    decreases |ps|
  {
    us := CutWeaves(ps[0], v);
    if |ps| == 1 {
      assert CutAll(ps[1..], v) == [] && Cut(ps[0], v) + [] == Cut(ps[0], v);
    } else {
      var more := CutAllWeaves(ps[1..], ws[1..], v);
      WeaveAppend(Cut(ps[0], v), us, ws[0], CutAll(ps[1..], v), more);
      us := us + [ws[0]] + more;
    }
  }

  /** The text is made of the pieces and, between them, of some of the values. */
  ghost predicate Woven(s: string, ps: seq<string>, ws: seq<string>, values: seq<string>) {
    |ps| == |ws| + 1 && (forall w :: w in ws ==> w in values) && s == Weave(ps, ws)
  }

  lemma {:induction false} RedactPieces(s: string, ps: seq<string>, ws: seq<string>, gone: seq<string>, values: seq<string>)
    returns (qs: seq<string>, us: seq<string>)
    requires Woven(s, ps, ws, gone) && FreeOf(ps, gone)
    requires (forall k :: 0 <= k < |gone| ==> gone[k] != "") && forall k :: 0 <= k < |values| ==> values[k] != "" && Guarded(values[k])
    ensures Woven(s, qs, us, gone + values) && FreeOf(qs, gone + values) && Redact(Join(ps, MARK), values) == Join(qs, MARK)
    decreases |values|
  {
    hide Contains;
    if values == [] {
      assert gone + values == gone;
      qs, us := ps, ws;
    } else {
      var v := values[0];
      assert Guarded(v);
      var cut := CutAll(ps, v);
      var words := CutAllWeaves(ps, ws, v);
      assert v in gone + [v] && forall w :: w in gone ==> w in gone + [v];
      ReplacePieces(ps, v);
      forall i, k | 0 <= i < |cut| && 0 <= k < |gone + [v]| ensures !Contains(cut[i], (gone + [v])[k]) {
        CutAllPieces(ps, v, (gone + [v])[k]);
      }
      qs, us := RedactPieces(s, cut, words, gone + [v], values[1..]);
      assert gone + [v] + values[1..] == gone + values;
    }
  }

  /**
   Only occurrences are replaced: a line is some pieces with values between them, and comes
   out as the same pieces with marks between them, none of which has any of the values.
   */
  lemma OccurrencesReplaced(s: string, values: seq<string>)
    requires forall i :: 0 <= i < |values| ==> values[i] != "" && Guarded(values[i])
    ensures exists ps, ws :: Woven(s, ps, ws, values) && FreeOf(ps, values) && Redact(s, values) == Join(ps, "(redacted)")
  {
    hide Contains;
    assert Join([s], MARK) == s && Weave([s], []) == s;
    var qs, us := RedactPieces(s, [s], [], [], values);
    assert [] + values == values;
  }

  /**
   No secret is left: in every emitted line none of the values occurs, whatever their
   order and overlaps, provided none has a parenthesis or a newline or is a part of "redacted".
   */
  lemma NoSecretLeft(s: string, values: seq<string>, k: nat)
    requires k < |values| && forall i :: 0 <= i < |values| ==> values[i] != "" && Guarded(values[i])
    ensures !Contains(Redact(s, values), values[k])
  {
    hide Contains;
    OccurrencesReplaced(s, values);
    var ps, ws :| Woven(s, ps, ws, values) && FreeOf(ps, values) && Redact(s, values) == Join(ps, MARK);
    ContainsInPiece(ps, values[k]);
  }

  /** A line without any of the values comes out unchanged, whatever they are. */
  lemma {:induction false} CleanLineKept(s: string, values: seq<string>)
    requires forall i :: 0 <= i < |values| ==> values[i] != "" && !Contains(s, values[i])
    ensures Redact(s, values) == s
    decreases |values|
  {
    hide Contains;
    if values != [] {
      assert !Contains(s, values[0]);
      ReplaceAbsent(s, values[0], MARK);
      forall i | 0 <= i < |values[1..]| ensures values[1..][i] != "" && !Contains(s, values[1..][i]) {
        assert values[1..][i] == values[i + 1];
      }
      CleanLineKept(s, values[1..]);
    }
  }

  /** A line is changed if and only if one of the values occurs in it. */
  lemma RedactChanges(s: string, values: seq<string>)
    requires forall i :: 0 <= i < |values| ==> values[i] != "" && Guarded(values[i])
    ensures Redact(s, values) != s <==> exists i :: 0 <= i < |values| && Contains(s, values[i])
  {
    hide Contains;
    if i :| 0 <= i < |values| && Contains(s, values[i]) {
      NoSecretLeft(s, values, i);
    } else {
      CleanLineKept(s, values);
    }
  }
}
