/**
 The concrete runs the logger tests describe, stated over the model.
 */
module Scenarios {
  import opened Results
  import opened KvStore
  import opened Events
  import opened LogFormat
  import opened Handler

  /** Put(alpha,1), Put(beta,2), Delete(alpha) submitted to a fresh writer. */
  function SubmittedA(): seq<Event>
  {
    [WritePut("alpha", "1"), WritePut("beta", "2"), WriteDelete("alpha")]
  }

  /** A log of three events as file text. */
  lemma FormatThree(a: Event, b: Event, c: Event)
    ensures FormatLog([a, b, c]) == FormatLine(a) + "\n" + FormatLine(b) + "\n" + FormatLine(c) + "\n"
  {
    assert [a, b, c][1..] == [b, c];
    assert [b, c][1..] == [c];
    assert [c][1..] == [];
    assert FormatLog([c]) == FormatLine(c) + "\n";
    assert FormatLog([b, c]) == FormatLine(b) + "\n" + (FormatLine(c) + "\n");
  }

  /** The line of an event whose numbers are single digits, spelled out. */
  lemma SmallLine(e: Event, text: string)
    requires 1 <= e.sequence <= 9
    requires text == [DigitChar(e.sequence as nat), '\t', DigitChar(Code(e.eventType) as nat), '\t'] + e.key + ['\t'] + e.value
    ensures FormatLine(e) == text
  {
    JoinFour([DigitChar(e.sequence as nat)], [DigitChar(Code(e.eventType) as nat)], e.key, e.value, '\t');
  }

  /** The lines of the write test. */
  lemma LinesOfWriteTest()
    ensures FormatLine(Event(1, EventPut, "alpha", "1")) == "1\t2\talpha\t1"
    ensures FormatLine(Event(2, EventPut, "beta", "2")) == "2\t2\tbeta\t2"
    ensures FormatLine(Event(3, EventDelete, "alpha", "")) == "3\t1\talpha\t"
  {
    assert DigitChar(1) == '1' && DigitChar(2) == '2' && DigitChar(3) == '3';
    SmallLine(Event(1, EventPut, "alpha", "1"), "1\t2\talpha\t1");
    SmallLine(Event(2, EventPut, "beta", "2"), "2\t2\tbeta\t2");
    SmallLine(Event(3, EventDelete, "alpha", ""), "3\t1\talpha\t");
  }

  /** The lines of the replay test. */
  lemma LinesOfReplayTest()
    ensures FormatLine(Event(1, EventPut, "foo", "bar")) == "1\t2\tfoo\tbar"
    ensures FormatLine(Event(2, EventPut, "bob", "alice")) == "2\t2\tbob\talice"
    ensures FormatLine(Event(3, EventDelete, "foo", "")) == "3\t1\tfoo\t"
  {
    assert DigitChar(1) == '1' && DigitChar(2) == '2' && DigitChar(3) == '3';
    SmallLine(Event(1, EventPut, "foo", "bar"), "1\t2\tfoo\tbar");
    SmallLine(Event(2, EventPut, "bob", "alice"), "2\t2\tbob\talice");
    SmallLine(Event(3, EventDelete, "foo", ""), "3\t1\tfoo\t");
  }

  /** The writer numbers the three events 1, 2, 3 in submission order and writes
      exactly three lines; they read back as the expected records, the Delete
      with an empty value. */
  lemma WriteThreeEvents()
    ensures Sequence(SubmittedA(), 0)
         == [Event(1, EventPut, "alpha", "1"), Event(2, EventPut, "beta", "2"), Event(3, EventDelete, "alpha", "")]
    ensures Lines(Sequence(SubmittedA(), 0)) == ["1\t2\talpha\t1", "2\t2\tbeta\t2", "3\t1\talpha\t"]
    ensures ParseLog(FormatLog(Sequence(SubmittedA(), 0))) == Some(Sequence(SubmittedA(), 0))
  {
    var written := Sequence(SubmittedA(), 0);
    assert written[0] == Event(1, EventPut, "alpha", "1");
    assert written[1] == Event(2, EventPut, "beta", "2");
    assert written[2] == Event(3, EventDelete, "alpha", "");
    LinesOfWriteTest();
    LogRoundTrip(written);
  }

  /** The pre-written log of the replay test, parsed. */
  function LogB(): seq<Event>
  {
    [Event(1, EventPut, "foo", "bar"), Event(2, EventPut, "bob", "alice"), Event(3, EventDelete, "foo", "")]
  }

  /** The replay test's file text, as its lines joined with newlines. */
  function TextB(): string
  {
    "1\t2\tfoo\tbar\n2\t2\tbob\talice\n3\t1\tfoo\t\n"
  }

  /** Writing the three events produces the replay test's file text. */
  lemma TextBIsFormatted()
    ensures FormatLog(LogB()) == TextB()
  {
    var log := LogB();
    FormatThree(log[0], log[1], log[2]);
    LinesOfReplayTest();
  }

  /** The replay test's file text reads back as those three events. */
  lemma ParsePrewrittenLog()
    ensures ParseLog(TextB()) == Some(LogB())
  {
    TextBIsFormatted();
    LogRoundTrip(LogB());
  }

  /** Replaying those events onto a new store leaves foo absent and bob holding alice. */
  lemma ReplayPrewrittenLog()
    ensures ReplayDefined(map[], LogB())
    ensures Get(Replay(map[], LogB()), "foo") == Failure(NoSuchKey)
    ensures Get(Replay(map[], LogB()), "bob") == Success("alice")
  {
    var log := LogB();
    var s1 := ApplyEvent(map[], log[0]).store;
    var s2 := ApplyEvent(s1, log[1]).store;
    assert log[1..][1..][1..] == [];
    assert "foo" in s2;
  }

  /** The same history driven through the handlers produces the same store and
      submits the events whose file text is the replay test's input. */
  lemma HandlersProduceLogB()
    ensures var st := Run(Start(), [UpsertRequest("foo", Complete("bar")), UpsertRequest("bob", Complete("alice")), DeleteRequest("foo")], SentinelOnly);
            Sequence(st.log, 0) == LogB() && st.store == map["bob" := "alice"]
  {
    var reqs := [UpsertRequest("foo", Complete("bar")), UpsertRequest("bob", Complete("alice")), DeleteRequest("foo")];
    var s0 := Start();
    var s1 := Step(s0, reqs[0], SentinelOnly).state;
    var s2 := Step(s1, reqs[1], SentinelOnly).state;
    var s3 := Step(s2, reqs[2], SentinelOnly).state;
    assert reqs[1..][1..][1..] == [];
    assert Run(s0, reqs, SentinelOnly) == s3;
    assert s3.log == [WritePut("foo", "bar"), WritePut("bob", "alice"), WriteDelete("foo")];
    var written := Sequence(s3.log, 0);
    assert written[0] == LogB()[0] && written[1] == LogB()[1] && written[2] == LogB()[2];
  }
}
