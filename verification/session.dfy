/**
 A session: the logger driven through a sequence of `begin` and `log` calls,
 each with the hardware's answers for that call. The lemmas state what holds
 over any such sequence: the counter only grows and counts the rotations,
 the active name always follows the counter, the ready flag is whatever the
 last `begin` reported, nothing reaches the card before a successful
 `begin`, and the serial port mirrors exactly the records written, each of
 which has the documented shape. A record spans several lines of the file
 when its message holds a newline.
 */
module Sessions {
  import opened Wrappers
  import opened LogLevels
  import opened Timestamps
  import opened LogLines
  import opened DataLogger

  /** One call on the logger, with what the hardware answers during it. */
  datatype Call =
    | BeginCall(cardDetected: bool)
    | LogCall(message: string, level: LogLevel, drv: Driver)

  /** One call as a transition; the result of `begin` is dropped. */
  function Apply(s: Logger, c: Call): Step<()> {
    match c
    case BeginCall(ok) =>
      var b := Begin(s, ok);
      Step((), b.next, b.card, b.serial)
    case LogCall(message, level, drv) =>
      Log(s, message, level, drv)
  }

  /** The calls in order; the outputs of the calls are concatenated per channel. */
  function Run(s: Logger, calls: seq<Call>): Step<()>
    decreases |calls|
  {
    if |calls| == 0 then Step((), s, [], [])
    else
      var first := Apply(s, calls[0]);
      var rest := Run(first.next, calls[1..]);
      Step((), rest.next, first.card + rest.card, first.serial + rest.serial)
  }

  /** The lines of a concatenation are the concatenated lines. */
  lemma LinesOfDistributes(a: seq<(string, string)>, b: seq<(string, string)>)
    ensures LinesOf(a + b) == LinesOf(a) + LinesOf(b)
  {
    var l := LinesOf(a + b);
    var r := LinesOf(a) + LinesOf(b);
    assert |l| == |r|;
    forall k | 0 <= k < |l|
      ensures l[k] == r[k]
    {
      if k < |a| {
        assert (a + b)[k] == a[k];
      } else {
        assert (a + b)[k] == b[k - |a|];
      }
    }
  }

  /** Every written record, the text of one `file.print`, reads back as a log entry. */
  predicate LinesParse(w: seq<(string, string)>) {
    forall k :: 0 <= k < |w| ==> ParseLine(w[k].1).Some?
  }

  /** `name` is the base name or a rotation name with an index in `lo..hi`. */
  predicate ActiveBetween(base: string, name: string, lo: nat, hi: nat) {
    exists i :: lo <= i <= hi && name == ActiveName(base, i)
  }

  /** Every written file is active for some counter in `lo..hi`. */
  predicate NamesBetween(base: string, w: seq<(string, string)>, lo: nat, hi: nat) {
    forall k :: 0 <= k < |w| ==> ActiveBetween(base, w[k].0, lo, hi)
  }

  lemma LinesParseConcat(a: seq<(string, string)>, b: seq<(string, string)>)
    requires LinesParse(a) && LinesParse(b)
    ensures LinesParse(a + b)
  {
    forall k | 0 <= k < |a + b|
      ensures ParseLine((a + b)[k].1).Some?
    {
      if k < |a| {
        assert (a + b)[k] == a[k];
      } else {
        assert (a + b)[k] == b[k - |a|];
      }
    }
  }

  lemma NamesBetweenConcat(base: string, a: seq<(string, string)>, b: seq<(string, string)>,
                           lo: nat, mid: nat, hi: nat)
    requires lo <= mid <= hi
    requires NamesBetween(base, a, lo, mid) && NamesBetween(base, b, mid, hi)
    ensures NamesBetween(base, a + b, lo, hi)
  {
    forall k | 0 <= k < |a + b|
      ensures ActiveBetween(base, (a + b)[k].0, lo, hi)
    {
      if k < |a| {
        var i :| lo <= i <= mid && a[k].0 == ActiveName(base, i);
        assert (a + b)[k] == a[k];
        assert lo <= i <= hi && (a + b)[k].0 == ActiveName(base, i);
      } else {
        var i :| mid <= i <= hi && b[k - |a|].0 == ActiveName(base, i);
        assert (a + b)[k] == b[k - |a|];
        assert lo <= i <= hi && (a + b)[k].0 == ActiveName(base, i);
      }
    }
  }

  /** What one call outputs, in the terms the session lemmas need. */
  lemma ApplyOutput(s: Logger, c: Call)
    ensures var r := Apply(s, c);
            && FileIndex(s) <= FileIndex(r.next)
            && Rotations(r.serial) == FileIndex(r.next) - FileIndex(s)
            && Mirrored(r.serial) == LinesOf(Written(r.card))
            && LinesParse(Written(r.card))
  {
    match c {
      case BeginCall(ok) =>
        assert Written([]) == [];
      case LogCall(message, level, drv) =>
        LogOutput(s, message, level, drv);
        BuildLineParses(drv.ms, level, message);
    }
  }

  /** One call keeps the active name in step with the counter and writes only to the active file. */
  lemma ApplyNames(base: string, s: Logger, c: Call)
    requires NamedByIndex(base, s)
    ensures var r := Apply(s, c);
            && NamedByIndex(base, r.next)
            && NamesBetween(base, Written(r.card), FileIndex(s), FileIndex(r.next))
  {
    match c {
      case BeginCall(ok) =>
        assert Written([]) == [];
      case LogCall(message, level, drv) =>
        LogOutput(s, message, level, drv);
        LogKeepsNaming(base, s, message, level, drv);
        var r := Log(s, message, level, drv);
        var w := Written(r.card);
        forall k | 0 <= k < |w|
          ensures ActiveBetween(base, w[k].0, FileIndex(s), FileIndex(r.next))
        {
          assert w[k].0 == ActiveName(base, FileIndex(r.next));
        }
    }
  }

  /** The counter never goes down, and it grows by exactly the number of rotations announced. */
  lemma {:induction false} RunCountsRotations(s: Logger, calls: seq<Call>)
    ensures FileIndex(Run(s, calls).next) == FileIndex(s) + Rotations(Run(s, calls).serial)
    decreases |calls|
  {
    if |calls| > 0 {
      var first := Apply(s, calls[0]);
      var rest := Run(first.next, calls[1..]);
      ApplyOutput(s, calls[0]);
      RunCountsRotations(first.next, calls[1..]);
      SerialDistributes(first.serial, rest.serial);
    }
  }

  /** The active name follows the counter after any sequence of calls. */
  lemma {:induction false} RunKeepsNaming(base: string, s: Logger, calls: seq<Call>)
    requires NamedByIndex(base, s)
    ensures NamedByIndex(base, Run(s, calls).next)
    decreases |calls|
  {
    if |calls| > 0 {
      ApplyNames(base, s, calls[0]);
      RunKeepsNaming(base, Apply(s, calls[0]).next, calls[1..]);
    }
  }

  /** The serial port mirrors exactly the lines written to the card, in the same order. */
  lemma {:induction false} RunMirrorsWrites(s: Logger, calls: seq<Call>)
    ensures Mirrored(Run(s, calls).serial) == LinesOf(Written(Run(s, calls).card))
    decreases |calls|
  {
    if |calls| == 0 {
      assert Written([]) == [] && Mirrored([]) == [];
    } else {
      var first := Apply(s, calls[0]);
      var rest := Run(first.next, calls[1..]);
      ApplyOutput(s, calls[0]);
      RunMirrorsWrites(first.next, calls[1..]);
      SerialDistributes(first.serial, rest.serial);
      WrittenDistributes(first.card, rest.card);
      LinesOfDistributes(Written(first.card), Written(rest.card));
    }
  }

  /**
   Every record written during a session, the text one `log` call prints,
   reads back as a log entry. When a message holds a newline the record
   spans several lines of the file (see `LogLines.EmbeddedNewline`).
   */
  lemma {:induction false} RunLinesWellFormed(s: Logger, calls: seq<Call>)
    ensures LinesParse(Written(Run(s, calls).card))
    decreases |calls|
  {
    if |calls| == 0 {
      assert Written([]) == [];
    } else {
      var first := Apply(s, calls[0]);
      var rest := Run(first.next, calls[1..]);
      ApplyOutput(s, calls[0]);
      RunLinesWellFormed(first.next, calls[1..]);
      WrittenDistributes(first.card, rest.card);
      LinesParseConcat(Written(first.card), Written(rest.card));
    }
  }

  /**
   Lines only ever go to the files the counter designates: the base name or
   a rotation name whose index lies between the counters at the start and
   at the end of the session.
   */
  lemma {:induction false} RunWritesToActiveFiles(base: string, s: Logger, calls: seq<Call>)
    requires NamedByIndex(base, s)
    ensures NamesBetween(base, Written(Run(s, calls).card), FileIndex(s), FileIndex(Run(s, calls).next))
    decreases |calls|
  {
    if |calls| == 0 {
      assert Written([]) == [];
    } else {
      var first := Apply(s, calls[0]);
      var rest := Run(first.next, calls[1..]);
      ApplyOutput(s, calls[0]);
      ApplyNames(base, s, calls[0]);
      RunWritesToActiveFiles(base, first.next, calls[1..]);
      RunCountsRotations(first.next, calls[1..]);
      WrittenDistributes(first.card, rest.card);
      NamesBetweenConcat(base, Written(first.card), Written(rest.card),
                         FileIndex(s), FileIndex(first.next), FileIndex(rest.next));
    }
  }

  /** The result of the last `begin` call, if there was one. */
  function LastBegin(calls: seq<Call>): Option<bool> {
    if |calls| == 0 then None
    else if calls[|calls| - 1].BeginCall? then Some(calls[|calls| - 1].cardDetected)
    else LastBegin(calls[..|calls| - 1])
  }

  /**
   The ready flag after a session is the result of the last `begin` call,
   or the flag at the start when there was none: a successful `begin`
   keeps the logger ready until a later `begin` fails, and nothing else
   changes it.
   */
  lemma {:induction false} RunReadyIsLastBegin(s: Logger, calls: seq<Call>)
    ensures IsReady(Run(s, calls).next) ==
            match LastBegin(calls) case Some(ok) => ok case None => IsReady(s)
    decreases |calls|
  {
    if |calls| > 0 {
      var first := Apply(s, calls[0]);
      assert IsReady(first.next) ==
             if calls[0].BeginCall? then calls[0].cardDetected else IsReady(s);
      RunReadyIsLastBegin(first.next, calls[1..]);
      LastBeginFront(calls);
    }
  }

  /** The last `begin` seen from the front: the one in the tail if any, else the head if it is one. */
  lemma {:induction false} LastBeginFront(calls: seq<Call>)
    requires |calls| > 0
    ensures LastBegin(calls) ==
            match LastBegin(calls[1..])
            case Some(ok) => Some(ok)
            case None => if calls[0].BeginCall? then Some(calls[0].cardDetected) else None
    decreases |calls|
  {
    var n := |calls|;
    if n == 1 {
      assert calls[1..] == [];
      assert LastBegin(calls[..0]) == None by { assert calls[..0] == []; }
    } else {
      var init := calls[..n - 1];
      assert calls[1..][|calls[1..]| - 1] == calls[n - 1];
      assert calls[1..][..|calls[1..]| - 1] == init[1..];
      if !calls[n - 1].BeginCall? {
        LastBeginFront(init);
        assert init[0] == calls[0];
      }
    }
  }

  /**
   As long as no `begin` succeeds, a logger that is not ready stays exactly
   as it is, never touches the card and mirrors no line.
   */
  lemma {:induction false} RunWhileNotReady(s: Logger, calls: seq<Call>)
    requires !IsReady(s)
    requires forall i :: 0 <= i < |calls| ==> calls[i] != BeginCall(true)
    ensures Run(s, calls).next == s
    ensures Run(s, calls).card == []
    ensures Mirrored(Run(s, calls).serial) == []
    decreases |calls|
  {
    if |calls| == 0 {
      assert Mirrored([]) == [];
    } else {
      var first := Apply(s, calls[0]);
      match calls[0] {
        case BeginCall(ok) =>
          assert calls[0] != BeginCall(true);
        case LogCall(message, level, drv) =>
          LogWhenNotReady(s, message, level, drv);
      }
      assert first.next == s && first.card == [] && Mirrored(first.serial) == [];
      RunWhileNotReady(s, calls[1..]);
      SerialDistributes(first.serial, Run(s, calls[1..]).serial);
    }
  }

  /**
   `getFileIndex` and `getFilename` after any session on a freshly built
   logger: the number of rotations so far, and the base name or the
   rotation name of that number.
   */
  lemma AccessorsAfterSession(base: string, calls: seq<Call>)
    ensures var r := Run(Construct(base), calls);
            && FileIndex(r.next) == Rotations(r.serial)
            && Filename(r.next) == ActiveName(base, FileIndex(r.next))
  {
    RunCountsRotations(Construct(base), calls);
    RunKeepsNaming(base, Construct(base), calls);
  }

  /** Two rotations in a row write to `data_1.log` and then to `data_2.log`. */
  lemma TwoRotations(ms: Millis)
    ensures var big := Driver(true, 1048577, true, ms);
            var r := Run(Construct("system.log"),
                         [BeginCall(true), LogCall("a", INFO, big), LogCall("b", INFO, big)]);
            && FileIndex(r.next) == 2
            && Written(r.card) == [("data_1.log", BuildLine(ms, INFO, "a")),
                                   ("data_2.log", BuildLine(ms, INFO, "b"))]
  {
    var big := Driver(true, 1048577, true, ms);
    var calls := [BeginCall(true), LogCall("a", INFO, big), LogCall("b", INFO, big)];
    var s0 := Construct("system.log");
    var s1 := Apply(s0, calls[0]);
    var s2 := Apply(s1.next, calls[1]);
    var s3 := Apply(s2.next, calls[2]);
    FirstRotationNames();
    LogRotateAndWrite(s1.next, "a", INFO, big);
    LogRotateAndWrite(s2.next, "b", INFO, big);
    var r3 := Run(s3.next, calls[1..][1..][1..]);
    var r2 := Run(s2.next, calls[1..][1..]);
    var r1 := Run(s1.next, calls[1..]);
    var r0 := Run(s0, calls);
    assert calls[1..][1..][1..] == [];
    assert r3.card == [] && r3.next == s3.next;
    assert r2.card == s3.card && r2.next == s3.next;
    assert r1.card == s2.card + s3.card && r1.next == s3.next;
    assert r0.card == s1.card + r1.card && r0.next == s3.next;
    assert s1.card == [];
    assert r0.card == s2.card + s3.card;
    WrittenDistributes(s2.card, s3.card);
    assert Written(r0.card) == Written(s2.card) + Written(s3.card);
  }
}
