/**
 The text form of the file-backed transaction log: one line per event,
 `sequence TAB type TAB key TAB value`, numbers in decimal, lines ended by a
 newline. The parser here is a strict reference reader for that format.
 */
module LogFormat {
  import opened Results
  import opened Events

  // ---------------------------------------------------------------- decimals

  predicate IsDigit(c: char)
  {
    '0' <= c <= '9'
  }

  function DigitChar(d: nat): (c: char)
    requires d < 10
    ensures IsDigit(c) && (c as int) - ('0' as int) == d
  {
    (('0' as int) + d) as char
  }

  /** The decimal spelling of a natural number, most significant digit first, no leading zeros. */
  function Digits(n: nat): (s: string)
    ensures |s| > 0
    ensures forall i :: 0 <= i < |s| ==> IsDigit(s[i])
  {
    if n < 10 then [DigitChar(n)] else Digits(n / 10) + [DigitChar(n % 10)]
  }

  /** The value of a non-empty string of decimal digits; anything else is not a number. */
  function ParseNat(s: string): (r: Option<nat>)
    ensures r.Some? <==> |s| > 0 && forall i :: 0 <= i < |s| ==> IsDigit(s[i])
  {
    if |s| == 0 || !IsDigit(s[|s| - 1]) then None
    else if |s| == 1 then Some((s[0] as int) - ('0' as int))
    else match ParseNat(s[..|s| - 1])
      case None => None
      case Some(high) => Some(high * 10 + ((s[|s| - 1] as int) - ('0' as int)))
  }

  /** Reading back the decimal spelling of a number gives the number. */
  lemma {:induction false} DigitsRoundTrip(n: nat)
    ensures ParseNat(Digits(n)) == Some(n)
  {
    if n >= 10 {
      var s := Digits(n);
      assert s[..|s| - 1] == Digits(n / 10);
      DigitsRoundTrip(n / 10);
    }
  }

  // ---------------------------------------------------------------- fields

  /** `parts` joined with `sep` between neighbours. */
  function Join(parts: seq<string>, sep: char): string
    requires |parts| > 0
    decreases |parts|
  {
    if |parts| == 1 then parts[0] else parts[0] + [sep] + Join(parts[1..], sep)
  }

  predicate FreeOf(s: string, sep: char)
  {
    forall i :: 0 <= i < |s| ==> s[i] != sep
  }

  /** The pieces of `s` between occurrences of `sep`; joining them gives `s` back. */
  function Split(s: string, sep: char): (parts: seq<string>)
    ensures |parts| > 0
    ensures Join(parts, sep) == s
    ensures forall i :: 0 <= i < |parts| ==> FreeOf(parts[i], sep)
    decreases |s|
  {
    if |s| == 0 then [""]
    else
      var rest := Split(s[1..], sep);
      if s[0] == sep then
        assert s == [] + [sep] + Join(rest, sep);
        [""] + rest
      else
        var parts := [[s[0]] + rest[0]] + rest[1..];
        assert parts[1..] == rest[1..];
        assert s == [s[0]] + Join(rest, sep);
        parts
  }

  /** A separator-free piece followed by the separator splits off as one piece. */
  lemma {:induction false} SplitFront(a: string, sep: char, tail: string)
    requires FreeOf(a, sep)
    ensures Split(a + [sep] + tail, sep) == [a] + Split(tail, sep)
    ensures Split(a, sep) == [a]
    decreases |a|
  {
    if |a| > 0 {
      assert (a + [sep] + tail)[1..] == a[1..] + [sep] + tail;
      SplitFront(a[1..], sep, tail);
      assert [a[0]] + a[1..] == a;
    } else {
      assert a + [sep] + tail == [sep] + tail;
      assert ([sep] + tail)[1..] == tail;
    }
  }

  /** Splitting undoes joining when no piece contains the separator. */
  lemma {:induction false} SplitJoin(parts: seq<string>, sep: char)
    requires |parts| > 0
    requires forall i :: 0 <= i < |parts| ==> FreeOf(parts[i], sep)
    ensures Split(Join(parts, sep), sep) == parts
    decreases |parts|
  {
    if |parts| == 1 {
      SplitFront(parts[0], sep, "");
    } else {
      SplitFront(parts[0], sep, Join(parts[1..], sep));
      SplitJoin(parts[1..], sep);
    }
  }

  // ---------------------------------------------------------------- lines

  /** Characters a `%s` verb stops at. */
  predicate IsSpace(c: char)
  {
    c == ' ' || c == '\t' || c == '\n' || c == '\r'
  }

  /** A key or value that a whitespace-delimited reader returns unchanged. */
  predicate PlainField(s: string)
  {
    forall i :: 0 <= i < |s| ==> !IsSpace(s[i])
  }

  /** The line for one event, without its newline. */
  function FormatLine(e: Event): string
  {
    Join([Digits(e.sequence as nat), Digits(Code(e.eventType) as nat), e.key, e.value], '\t')
  }

  /** Reads one line: exactly four tab-separated fields, a sequence number that fits
      in 64 bits, and an event type code of 1 or 2. */
  function ParseLine(line: string): (r: Option<Event>)
    ensures r.Some? ==> FreeOf(r.value.key, '\t') && FreeOf(r.value.value, '\t')
    ensures r.Some? ==> exists f :: f == Split(line, '\t') && |f| == 4 && f[2] == r.value.key && f[3] == r.value.value
    ensures r.Some? ==> ParseNat(Split(line, '\t')[0]) == Some(r.value.sequence as nat)
    ensures r.Some? ==> ParseNat(Split(line, '\t')[1]) == Some(Code(r.value.eventType) as nat)
  {
    var f := Split(line, '\t');
    if |f| != 4 then None
    else match (ParseNat(f[0]), ParseNat(f[1]))
      case (Some(n), Some(c)) =>
        if n < UINT64_MODULUS && c < 0x100 && EventTypeOf(c as uint8).Some? then
          Some(Event(n as uint64, EventTypeOf(c as uint8).value, f[2], f[3]))
        else None
      case _ => None
  }

  /** A line written for an event with whitespace-free key and value reads back as that event. */
  lemma {:induction false} LineRoundTrip(e: Event)
    requires PlainField(e.key) && PlainField(e.value)
    ensures ParseLine(FormatLine(e)) == Some(e)
  {
    var fields := [Digits(e.sequence as nat), Digits(Code(e.eventType) as nat), e.key, e.value];
    forall i | 0 <= i < |fields| ensures FreeOf(fields[i], '\t') {
      if i == 2 { assert fields[i] == e.key; }
      if i == 3 { assert fields[i] == e.value; }
    }
    SplitJoin(fields, '\t');
    DigitsRoundTrip(e.sequence as nat);
    DigitsRoundTrip(Code(e.eventType) as nat);
    CodeRoundTrip(e.eventType);
  }

  /** A Delete is written with an empty last field and reads back with an empty value. */
  lemma DeleteLineHasEmptyValue(key: string, n: uint64)
    requires PlainField(key)
    ensures FormatLine(WriteDelete(key).(sequence := n))
         == Digits(n as nat) + "\t1\t" + key + "\t"
    ensures ParseLine(FormatLine(WriteDelete(key).(sequence := n))) == Some(Event(n, EventDelete, key, ""))
  {
    JoinFour(Digits(n as nat), Digits(1), key, "", '\t');
    assert Digits(1) == "1";
    LineRoundTrip(WriteDelete(key).(sequence := n));
  }

  /** A four-field line spelled out. */
  lemma JoinFour(a: string, b: string, c: string, d: string, sep: char)
    ensures Join([a, b, c, d], sep) == a + [sep] + b + [sep] + c + [sep] + d
  {
    assert [a, b, c, d][1..] == [b, c, d];
    assert [b, c, d][1..] == [c, d];
    assert [c, d][1..] == [d];
    assert Join([d], sep) == d;
    assert Join([c, d], sep) == c + [sep] + d;
    assert Join([b, c, d], sep) == b + [sep] + (c + [sep] + d);
  }

  // ---------------------------------------------------------------- whole log

  /** The log file's text: every event's line followed by a newline, in log order. */
  function FormatLog(log: seq<Event>): string
  {
    if |log| == 0 then "" else FormatLine(log[0]) + "\n" + FormatLog(log[1..])
  }

  function Lines(log: seq<Event>): (lines: seq<string>)
    ensures |lines| == |log|
    ensures forall i :: 0 <= i < |log| ==> lines[i] == FormatLine(log[i])
  {
    if |log| == 0 then [] else [FormatLine(log[0])] + Lines(log[1..])
  }

  /** Parses each line in turn; one malformed line makes the whole read fail. */
  function ParseLines(lines: seq<string>): (r: Option<seq<Event>>)
    ensures r.Some? ==> |r.value| == |lines|
    ensures r.Some? ==> forall i :: 0 <= i < |lines| ==> ParseLine(lines[i]) == Some(r.value[i])
  {
    if |lines| == 0 then Some([])
    else match (ParseLine(lines[0]), ParseLines(lines[1..]))
      case (Some(e), Some(rest)) => Some([e] + rest)
      case _ => None
  }

  /** Reads a whole log: newline-terminated lines, each of which must parse. */
  function ParseLog(text: string): (r: Option<seq<Event>>)
    ensures r.Some? ==> Split(text, '\n')[|Split(text, '\n')| - 1] == ""
    ensures r.Some? ==> |r.value| == |Split(text, '\n')| - 1
    ensures r.Some? ==> forall i :: 0 <= i < |r.value| ==> ParseLine(Split(text, '\n')[i]) == Some(r.value[i])
  {
    var lines := Split(text, '\n');
    if lines[|lines| - 1] != "" then None
    else ParseLines(lines[..|lines| - 1])
  }

  lemma {:induction false} FormatLogIsJoin(log: seq<Event>)
    ensures FormatLog(log) == Join(Lines(log) + [""], '\n')
    decreases |log|
  {
    if |log| > 0 {
      FormatLogIsJoin(log[1..]);
      assert (Lines(log) + [""])[1..] == Lines(log[1..]) + [""];
    }
  }

  lemma LineFreeOfNewline(e: Event)
    requires PlainField(e.key) && PlainField(e.value)
    ensures FreeOf(FormatLine(e), '\n')
  {
    var fields := [Digits(e.sequence as nat), Digits(Code(e.eventType) as nat), e.key, e.value];
    JoinFreeOf(fields, '\t', '\n');
  }

  lemma {:induction false} JoinFreeOf(parts: seq<string>, sep: char, c: char)
    requires |parts| > 0 && sep != c
    requires forall i :: 0 <= i < |parts| ==> FreeOf(parts[i], c)
    ensures FreeOf(Join(parts, sep), c)
    decreases |parts|
  {
    if |parts| > 1 {
      JoinFreeOf(parts[1..], sep, c);
    }
  }

  lemma {:induction false} ParseLinesRoundTrip(log: seq<Event>)
    requires forall i :: 0 <= i < |log| ==> PlainField(log[i].key) && PlainField(log[i].value)
    ensures ParseLines(Lines(log)) == Some(log)
    decreases |log|
  {
    if |log| > 0 {
      LineRoundTrip(log[0]);
      ParseLinesRoundTrip(log[1..]);
      assert Lines(log)[1..] == Lines(log[1..]);
      assert [log[0]] + log[1..] == log;
    }
  }

  /** Writing a log and reading it back yields the same events, in the same order,
      with the same fields, when keys and values are whitespace-free. */
  lemma {:induction false} LogRoundTrip(log: seq<Event>)
    requires forall i :: 0 <= i < |log| ==> PlainField(log[i].key) && PlainField(log[i].value)
    ensures ParseLog(FormatLog(log)) == Some(log)
  {
    var lines := Lines(log) + [""];
    forall i | 0 <= i < |lines| ensures FreeOf(lines[i], '\n') {
      if i < |log| { LineFreeOfNewline(log[i]); }
    }
    FormatLogIsJoin(log);
    SplitJoin(lines, '\n');
    assert lines[..|lines| - 1] == Lines(log);
    ParseLinesRoundTrip(log);
  }
}
