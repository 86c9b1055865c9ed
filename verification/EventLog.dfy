/**
 The management event log of `src/events.rs`: a JSONL file, a running total, and a bounded window of the
 latest events in memory. The file is modelled line by line; encoding and decoding of one record is not.
 */
module EventLog {
  import opened Outcomes

  datatype Event<T> = Event(id: nat, body: T)

  /**
   What one line of the file holds: spaces, tabs and carriage returns only (`Blank`), which the decoder skips as the
   line reader does; white space of which some is skipped by the line reader only (`WideBlank`); a decodable event;
   other text; or bytes that are not UTF-8.
   */
  datatype Line<T> = Blank | WideBlank | Record(event: Event<T>) | Corrupt | NotUtf8
  {
    /** The line does not make the file unreadable even when others follow it. */
    predicate Harmless() {
      !Corrupt? && !NotUtf8?
    }

    function Events(): seq<Event<T>> {
      if Record? then [event] else []
    }
  }

  /** The lines of the file, and whether the last one ends in a line feed. */
  datatype LogFile<T> = LogFile(lines: seq<Line<T>>, terminated: bool)

  datatype LogError = CorruptLine | InvalidUtf8 | WriteFailed

  // --- Reading ----------------------------------------------------------------------------------

  /**
   `read_events_from_path`: blank lines are skipped, a corrupt last line is dropped; any other corrupt line fails, and
   so does a line that is not UTF-8, wherever it stands.
   */
  function ReadLines<T>(lines: seq<Line<T>>): Result<seq<Event<T>>, LogError> {
    if lines == [] then Ok([])
    else
      match lines[0]
      case Blank => ReadLines(lines[1..])
      case WideBlank => ReadLines(lines[1..])
      case NotUtf8 => Err(InvalidUtf8)
      case Corrupt => if |lines| == 1 then Ok([]) else Err(CorruptLine)
      case Record(event) => Prepend([event], ReadLines(lines[1..]))
  }

  function Prepend<T>(first: seq<Event<T>>, rest: Result<seq<Event<T>>, LogError>): Result<seq<Event<T>>, LogError> {
    if rest.Ok? then Ok(first + rest.value) else rest
  }

  lemma PrependTwice<T>(a: seq<Event<T>>, b: seq<Event<T>>, rest: Result<seq<Event<T>>, LogError>)
    ensures Prepend(a, Prepend(b, rest)) == Prepend(a + b, rest) && Prepend([], rest) == rest
  {
    if rest.Ok? {
      assert a + (b + rest.value) == a + b + rest.value;
      assert [] + rest.value == rest.value;
    }
  }

  /** The events on the lines that decode. */
  function Records<T>(lines: seq<Line<T>>): seq<Event<T>> {
    if lines == [] then [] else lines[0].Events() + Records(lines[1..])
  }

  ghost predicate AllHarmless<T>(lines: seq<Line<T>>) {
    forall line <- lines :: line.Harmless()
  }

  lemma {:induction false} RecordsOfSnoc<T>(init: seq<Line<T>>, last: Line<T>)
    ensures Records(init + [last]) == Records(init) + last.Events()
  {
    if init == [] {
      assert [last][1..] == [] && init + [last] == [last];
    } else {
      assert (init + [last])[1..] == init[1..] + [last];
      RecordsOfSnoc(init[1..], last);
      AppendAssociates(init[0].Events(), Records(init[1..]), last.Events());
    }
  }

  lemma AppendAssociates<A>(a: seq<A>, b: seq<A>, c: seq<A>)
    ensures a + (b + c) == a + b + c
  {
  }

  lemma HarmlessOfSnoc<T>(init: seq<Line<T>>, last: Line<T>)
    ensures AllHarmless(init + [last]) <==> AllHarmless(init) && last.Harmless()
  {
    assert forall line :: line in init + [last] <==> line in init || line == last;
  }

  lemma HarmlessOfCons<T>(lines: seq<Line<T>>)
    requires lines != []
    ensures AllHarmless(lines) <==> lines[0].Harmless() && AllHarmless(lines[1..])
  {
    assert forall line :: line in lines <==> line == lines[0] || line in lines[1..];
  }

  lemma ReadOfCons<T>(lines: seq<Line<T>>)
    requires |lines| > 1
    ensures if lines[0].Harmless() then ReadLines(lines) == Prepend(lines[0].Events(), ReadLines(lines[1..]))
            else ReadLines(lines).Err?
  {
    PrependTwice([], [], ReadLines(lines[1..]));
  }

  /** Up to its last line a readable file is harmless, and its last line is not broken UTF-8. */
  lemma {:induction false} ReadOfSnoc<T>(init: seq<Line<T>>, last: Line<T>)
    ensures ReadLines(init + [last]).Ok? <==> AllHarmless(init) && !last.NotUtf8?
    ensures ReadLines(init + [last]).Ok? ==> ReadLines(init + [last]).value == Records(init) + last.Events()
  {
    var lines := init + [last];
    if init == [] {
      assert lines == [last] && lines[1..] == [];
    } else {
      assert lines[1..] == init[1..] + [last] && lines[0] == init[0];
      ReadOfCons(lines);
      ReadOfSnoc(init[1..], last);
      HarmlessOfCons(init);
      AppendAssociates(init[0].Events(), Records(init[1..]), last.Events());
    }
  }

  /**
   Reading fails exactly when some line is not UTF-8 or a line other than the last is corrupt; otherwise it returns
   the decodable events in order.
   */
  lemma ReadMeaning<T>(lines: seq<Line<T>>)
    ensures ReadLines(lines).Ok?
            <==> forall i :: 0 <= i < |lines| ==> !lines[i].NotUtf8? && (lines[i].Corrupt? ==> i == |lines| - 1)
    ensures ReadLines(lines).Ok? ==> ReadLines(lines).value == Records(lines)
  {
    if lines != [] {
      var init, last := lines[..|lines| - 1], lines[|lines| - 1];
      assert lines == init + [last];
      ReadOfSnoc(init, last);
      RecordsOfSnoc(init, last);
    }
  }

  /** A failed read reports the first line that is not UTF-8, or corrupt with another line after it. */
  lemma {:induction false} FirstBadLineDecides<T>(lines: seq<Line<T>>, i: nat)
    requires i < |lines| && !lines[i].Harmless() && (lines[i].Corrupt? ==> i + 1 < |lines|)
    requires forall k :: 0 <= k < i ==> lines[k].Harmless()
    ensures ReadLines(lines) == Err(if lines[i].NotUtf8? then InvalidUtf8 else CorruptLine)
  {
    if i > 0 {
      FirstBadLineDecides(lines[1..], i - 1);
    }
  }

  method ReadEventsFromPath<T>(file: LogFile<T>) returns (r: Result<seq<Event<T>>, LogError>)
    ensures r == ReadLines(file.lines)
  {
    var lines := file.lines;
    var events: seq<Event<T>> := [];
    var i := 0;
    PrependTwice([], [], ReadLines(lines));
    assert lines[0..] == lines;
    while i < |lines|
      invariant i <= |lines| && ReadLines(lines) == Prepend(events, ReadLines(lines[i..]))
    {
      assert lines[i..][1..] == lines[i + 1..];
      match lines[i] {
        case Blank =>
        case WideBlank =>
        case Record(event) =>
          PrependTwice(events, [event], ReadLines(lines[i + 1..]));
          events := events + [event];
        case NotUtf8 =>
          return Err(InvalidUtf8);
        case Corrupt =>
          if i + 1 == |lines| {
            assert events + [] == events;
            return Ok(events);
          }
          return Err(CorruptLine);
      }
      i := i + 1;
    }
    assert lines[i..] == [] && events + [] == events;
    r := Ok(events);
  }

  // --- Appending --------------------------------------------------------------------------------

  /** Where a write breaks off: after the record, between two characters of it, or inside one. */
  datatype Cut = BeforeLineFeed | BetweenCharacters | InsideCharacter

  /** `NotOpened` stands for every failure before the first byte. */
  datatype WriteOutcome = Written | NotOpened | Torn(cut: Cut)

  /** An unterminated line runs into the text written after it; only what the decoder skips does no harm there. */
  function Joined<T>(last: Line<T>, text: Line<T>): Line<T> {
    if last.NotUtf8? || text.NotUtf8? then NotUtf8 else if last.Blank? then text else Corrupt
  }

  /** The next text starts a line of its own. */
  predicate AtLineStart<T>(file: LogFile<T>) {
    file.terminated || file.lines == []
  }

  function WithText<T>(file: LogFile<T>, text: Line<T>, terminated: bool): LogFile<T> {
    if AtLineStart(file) then LogFile(file.lines + [text], terminated)
    else LogFile(file.lines[..|file.lines| - 1] + [Joined(file.lines[|file.lines| - 1], text)], terminated)
  }

  function AppendRecord<T>(file: LogFile<T>, event: Event<T>): LogFile<T> {
    WithText(file, Record(event), true)
  }

  /** What is left of a record that breaks off. */
  function TornText<T>(event: Event<T>, cut: Cut): Line<T> {
    match cut
    case BeforeLineFeed => Record(event)
    case BetweenCharacters => Corrupt
    case InsideCharacter => NotUtf8
  }

  function TornRecord<T>(file: LogFile<T>, event: Event<T>, cut: Cut): LogFile<T> {
    WithText(file, TornText(event, cut), false)
  }

  /** The last line is not corrupt, and the next record starts a line of its own or follows skipped white space. */
  predicate EndsCleanly<T>(file: LogFile<T>) {
    file.lines == [] || (var last := file.lines[|file.lines| - 1]; !last.Corrupt? && (file.terminated || last.Blank?))
  }

  ghost predicate Readable<T>(file: LogFile<T>) {
    ReadLines(file.lines).Ok?
  }

  /** A readable file with one more line. */
  lemma NewLineReads<T>(lines: seq<Line<T>>, text: Line<T>)
    requires ReadLines(lines).Ok?
    ensures ReadLines(lines + [text]).Ok? <==> !text.NotUtf8? && (lines == [] || !lines[|lines| - 1].Corrupt?)
    ensures ReadLines(lines + [text]).Ok? ==> ReadLines(lines + [text]).value == ReadLines(lines).value + text.Events()
  {
    ReadOfSnoc(lines, text);
    ReadMeaning(lines);
    if lines != [] {
      var init, last := lines[..|lines| - 1], lines[|lines| - 1];
      assert lines == init + [last];
      ReadOfSnoc(init, last);
      HarmlessOfSnoc(init, last);
    }
  }

  /** A readable file whose last line is replaced. */
  lemma SameLineReads<T>(init: seq<Line<T>>, last: Line<T>, changed: Line<T>)
    requires ReadLines(init + [last]).Ok?
    ensures ReadLines(init + [changed]).Ok? <==> !changed.NotUtf8?
    ensures ReadLines(init + [last]).value == Records(init) + last.Events()
    ensures ReadLines(init + [changed]).Ok? ==> ReadLines(init + [changed]).value == Records(init) + changed.Events()
  {
    ReadOfSnoc(init, last);
    ReadOfSnoc(init, changed);
  }

  /** What a readable file holds once some text has been written to it. */
  lemma TextReads<T>(file: LogFile<T>, text: Line<T>, terminated: bool)
    requires Readable(file)
    ensures var file', n := WithText(file, text, terminated), |file.lines|;
            if AtLineStart(file) then
              && (Readable(file') <==> !text.NotUtf8? && (n == 0 || !file.lines[n - 1].Corrupt?))
              && (Readable(file') ==> ReadLines(file'.lines).value == ReadLines(file.lines).value + text.Events())
            else
              && (Readable(file') <==> !text.NotUtf8?)
              && (Readable(file') ==> ReadLines(file'.lines).value
                                      == Records(file.lines[..n - 1]) + Joined(file.lines[n - 1], text).Events())
              && ReadLines(file.lines).value == Records(file.lines[..n - 1]) + file.lines[n - 1].Events()
  {
    var n := |file.lines|;
    if AtLineStart(file) {
      NewLineReads(file.lines, text);
    } else {
      var init, last := file.lines[..n - 1], file.lines[n - 1];
      assert file.lines == init + [last];
      SameLineReads(init, last, Joined(last, text));
      ReadOfSnoc(init, last);
    }
  }

  /**
   A file that can be read takes one more record without losing anything exactly when it ends cleanly. The log
   accepts a corrupt last line when it opens, but then its next record is unreadable or makes the file so; and it
   accepts an unterminated last line of other white space, which spoils the record written after it.
   */
  lemma AppendIsDurableExactly<T>(file: LogFile<T>, event: Event<T>)
    requires Readable(file)
    ensures ReadLines(AppendRecord(file, event).lines) == Ok(ReadLines(file.lines).value + [event])
            <==> EndsCleanly(file)
  {
    var n, text := |file.lines|, Record(event);
    TextReads(file, text, true);
    if !AtLineStart(file) {
      var last := file.lines[n - 1];
      assert file.lines == file.lines[..n - 1] + [last];
      ReadOfSnoc(file.lines[..n - 1], last);
      if last.Blank? {
        SnocEmpty(Records(file.lines[..n - 1]));
      } else {
        assert |ReadLines(AppendRecord(file, event).lines).value| <= |ReadLines(file.lines).value|;
      }
    }
  }

  lemma SnocEmpty<A>(a: seq<A>)
    ensures a + [] == a
  {
  }

  /** After a corrupt but terminated last line, one append leaves a file that can no longer be opened. */
  lemma CorruptTailThenAppendIsFatal<T>(file: LogFile<T>, event: Event<T>)
    requires file.lines != [] && file.terminated && file.lines[|file.lines| - 1].Corrupt?
    ensures !Readable(AppendRecord(file, event))
  {
    ReadOfSnoc(file.lines, Record(event));
    assert file.lines[|file.lines| - 1] in file.lines;
  }

  // --- Runs of writes ---------------------------------------------------------------------------

  datatype Write<T> = Write(event: Event<T>, outcome: WriteOutcome)
  {
    function Text(): Line<T> {
      if outcome.Torn? then TornText(event, outcome.cut) else Record(event)
    }
  }

  function Performed<T>(file: LogFile<T>, write: Write<T>): LogFile<T> {
    if write.outcome.NotOpened? then file else WithText(file, write.Text(), write.outcome.Written?)
  }

  function After<T>(file: LogFile<T>, writes: seq<Write<T>>): LogFile<T> {
    if writes == [] then file else Performed(After(file, writes[..|writes| - 1]), writes[|writes| - 1])
  }

  /**
   How the file ends: cleanly; in an unterminated line, which is the last record (`pending`) or corrupt; in a corrupt
   line that a later write has terminated; or it cannot be opened any more.
   */
  datatype Health<T> = Clean | Dangling(pending: Option<Event<T>>) | Sealed | Unreadable

  /** The health, and the events that are safely on lines of their own. */
  datatype Account<T> = Account(health: Health<T>, kept: seq<Event<T>>)
  {
    function Reads(): seq<Event<T>> {
      if health.Dangling? && health.pending.Some? then kept + [health.pending.value] else kept
    }
  }

  /** The reference account of one write, without any file. */
  function Accounted<T>(a: Account<T>, write: Write<T>): Account<T> {
    if write.outcome.NotOpened? || a.health.Unreadable? then a
    else if write.outcome == Torn(InsideCharacter) || a.health.Sealed? then a.(health := Unreadable)
    else if a.health.Dangling? then a.(health := if write.outcome.Written? then Sealed else Dangling(None))
    else if write.outcome.Written? then a.(kept := a.kept + [write.event])
    else a.(health := Dangling(if write.outcome == Torn(BeforeLineFeed) then Some(write.event) else None))
  }

  function AccountOf<T>(read: seq<Event<T>>, writes: seq<Write<T>>): Account<T> {
    if writes == [] then Account(Clean, read)
    else Accounted(AccountOf(read, writes[..|writes| - 1]), writes[|writes| - 1])
  }

  ghost predicate Describes<T>(a: Account<T>, file: LogFile<T>) {
    if a.health.Unreadable? then !Readable(file)
    else
      && ReadLines(file.lines) == Ok(a.Reads())
      && match a.health
         case Clean => EndsCleanly(file)
         case Dangling(pending) =>
           && file.lines != [] && !file.terminated
           && file.lines[|file.lines| - 1] == (if pending.Some? then Record(pending.value) else Corrupt)
         case Sealed => file.lines != [] && file.terminated && file.lines[|file.lines| - 1].Corrupt?
  }

  /** A file that ends cleanly gains what the text holds, on a last line that is the text. */
  lemma CleanFileTakesText<T>(file: LogFile<T>, text: Line<T>, terminated: bool)
    requires Readable(file) && EndsCleanly(file)
    ensures var file' := WithText(file, text, terminated);
            && (Readable(file') <==> !text.NotUtf8?)
            && (Readable(file') ==> ReadLines(file'.lines) == Ok(ReadLines(file.lines).value + text.Events()))
            && file'.lines != [] && file'.lines[|file'.lines| - 1] == text && file'.terminated == terminated
  {
    TextReads(file, text, terminated);
    if !AtLineStart(file) {
      SnocEmpty(Records(file.lines[..|file.lines| - 1]));
    }
  }

  lemma CleanTakesText<T>(a: Account<T>, file: LogFile<T>, write: Write<T>)
    requires Describes(a, file) && a.health.Clean? && !write.outcome.NotOpened?
    ensures Describes(Accounted(a, write), Performed(file, write))
  {
    CleanFileTakesText(file, write.Text(), write.outcome.Written?);
    SnocEmpty(ReadLines(file.lines).value);
  }

  lemma DanglingTakesText<T>(a: Account<T>, file: LogFile<T>, write: Write<T>)
    requires Describes(a, file) && a.health.Dangling? && !write.outcome.NotOpened?
    ensures Describes(Accounted(a, write), Performed(file, write))
  {
    var init := Records(file.lines[..|file.lines| - 1]);
    TextReads(file, write.Text(), write.outcome.Written?);
    SnocEmpty(init);
    if a.health.pending.Some? {
      SameInit(init, a.kept, a.health.pending.value);
    }
  }

  lemma SameInit<A>(a: seq<A>, b: seq<A>, x: A)
    ensures a + [x] == b + [x] ==> a == b
  {
    assert a == (a + [x])[..|a|] && b == (b + [x])[..|b|];
    assert a + [x] == b + [x] ==> |a| == |b|;
  }

  lemma UnreadableTakesNoText<T>(file: LogFile<T>, text: Line<T>, terminated: bool)
    requires !Readable(file)
    ensures !Readable(WithText(file, text, terminated))
  {
    var n := |file.lines|;
    var init, last := file.lines[..n - 1], file.lines[n - 1];
    assert file.lines == init + [last];
    ReadOfSnoc(init, last);
    HarmlessOfSnoc(init, last);
    if AtLineStart(file) {
      ReadOfSnoc(file.lines, text);
    } else {
      ReadOfSnoc(init, Joined(last, text));
    }
  }

  lemma SealedTakesNoText<T>(a: Account<T>, file: LogFile<T>, write: Write<T>)
    requires Describes(a, file) && a.health.Sealed? && !write.outcome.NotOpened?
    ensures !Readable(Performed(file, write))
  {
    ReadOfSnoc(file.lines, write.Text());
    assert file.lines[|file.lines| - 1] in file.lines;
  }

  lemma WriteIsAccounted<T>(a: Account<T>, file: LogFile<T>, write: Write<T>)
    requires Describes(a, file)
    ensures Describes(Accounted(a, write), Performed(file, write))
  {
    if !write.outcome.NotOpened? {
      match a.health {
        case Clean => CleanTakesText(a, file, write);
        case Dangling(_) => DanglingTakesText(a, file, write);
        case Sealed => SealedTakesNoText(a, file, write);
        case Unreadable => UnreadableTakesNoText(file, write.Text(), write.outcome.Written?);
      }
    }
  }

  /**
   From a file that ends cleanly, whatever mix of complete, failed and torn writes follows: the file opens exactly
   when no tear fell inside a character and nothing was written after a complete write that followed a tear; and it
   then reads back as the old events, the complete writes before the first tear, and the torn record itself while it is
   whole and last.
   */
  lemma {:induction false} RunReadsExactly<T>(file: LogFile<T>, writes: seq<Write<T>>)
    requires Readable(file) && EndsCleanly(file)
    ensures var a := AccountOf(ReadLines(file.lines).value, writes);
            && (Readable(After(file, writes)) <==> !a.health.Unreadable?)
            && (!a.health.Unreadable? ==> ReadLines(After(file, writes).lines) == Ok(a.Reads()))
            && Describes(a, After(file, writes))
  {
    if writes != [] {
      var init := writes[..|writes| - 1];
      RunReadsExactly(file, init);
      WriteIsAccounted(AccountOf(ReadLines(file.lines).value, init), After(file, init), writes[|writes| - 1]);
    }
  }

  // --- Runs without and with one tear -----------------------------------------------------------

  ghost predicate NoTear<T>(writes: seq<Write<T>>) {
    forall w <- writes :: !w.outcome.Torn?
  }

  function Completed<T>(writes: seq<Write<T>>): seq<Event<T>> {
    if writes == [] then []
    else
      var rest, last := Completed(writes[..|writes| - 1]), writes[|writes| - 1];
      if last.outcome.Written? then rest + [last.event] else rest
  }

  lemma {:induction false} AccountWithoutTear<T>(read: seq<Event<T>>, writes: seq<Write<T>>)
    requires NoTear(writes)
    ensures AccountOf(read, writes) == Account(Clean, read + Completed(writes))
  {
    if writes == [] {
      SnocEmpty(read);
    } else {
      var init, last := writes[..|writes| - 1], writes[|writes| - 1];
      AccountWithoutTear(read, init);
      AppendAssociates(read, Completed(init), [last.event]);
    }
  }

  /**
   If every write completes or fails before writing, the file reads back as the old events and the complete ones, in
   order.
   */
  lemma AppendsReadBack<T>(file: LogFile<T>, writes: seq<Write<T>>)
    requires Readable(file) && EndsCleanly(file) && NoTear(writes)
    ensures ReadLines(After(file, writes).lines) == Ok(ReadLines(file.lines).value + Completed(writes))
    ensures EndsCleanly(After(file, writes))
  {
    RunReadsExactly(file, writes);
    AccountWithoutTear(ReadLines(file.lines).value, writes);
  }

  /**
   If the last write of such a run breaks off, the file opens exactly when the cut is not inside a character; then
   only the torn record can be lost, and it is lost exactly when it is incomplete. A cut inside a character loses
   every event.
   */
  lemma TornTailOpensExactly<T>(file: LogFile<T>, writes: seq<Write<T>>, torn: Event<T>, cut: Cut)
    requires Readable(file) && EndsCleanly(file) && NoTear(writes)
    ensures var kept := ReadLines(file.lines).value + Completed(writes);
            var torn' := TornRecord(After(file, writes), torn, cut);
            && (Readable(torn') <==> !cut.InsideCharacter?)
            && (Readable(torn') ==> ReadLines(torn'.lines) == Ok(if cut.BeforeLineFeed? then kept + [torn] else kept))
  {
    var read := ReadLines(file.lines).value;
    AppendsReadBack(file, writes);
    WriteIsAccounted(Account(Clean, read + Completed(writes)), After(file, writes), Write(torn, Torn(cut)));
  }

  lemma TornIsDangling<T>(file: LogFile<T>, cut: Cut, torn: Event<T>, kept: seq<Event<T>>)
    requires ReadLines(file.lines) == Ok(kept) && EndsCleanly(file) && !cut.InsideCharacter?
    ensures Describes(Account(Dangling(if cut.BeforeLineFeed? then Some(torn) else None), kept),
                      TornRecord(file, torn, cut))
  {
    CleanTakesText(Account(Clean, kept), file, Write(torn, Torn(cut)));
  }

  lemma DanglingIsSealed<T>(file: LogFile<T>, pending: Option<Event<T>>, kept: seq<Event<T>>, event: Event<T>)
    requires Describes(Account(Dangling(pending), kept), file)
    ensures Describes(Account(Sealed, kept), AppendRecord(file, event))
  {
    DanglingTakesText(Account(Dangling(pending), kept), file, Write(event, Written));
  }

  lemma SealedIsFatal<T>(file: LogFile<T>, kept: seq<Event<T>>, event: Event<T>)
    requires Describes(Account(Sealed, kept), file)
    ensures !Readable(AppendRecord(file, event))
  {
    SealedTakesNoText(Account(Sealed, kept), file, Write(event, Written));
  }

  /** After a tear, one more complete write still opens but loses both records, and the next one is fatal. */
  lemma TearThenWrites<T>(file: LogFile<T>, cut: Cut, torn: Event<T>, second: Event<T>, third: Event<T>)
    requires Readable(file) && EndsCleanly(file) && !cut.InsideCharacter?
    ensures var once := AppendRecord(TornRecord(file, torn, cut), second);
            ReadLines(once.lines) == ReadLines(file.lines) && !Readable(AppendRecord(once, third))
  {
    var kept, broken := ReadLines(file.lines).value, TornRecord(file, torn, cut);
    var once := AppendRecord(broken, second);
    TornIsDangling(file, cut, torn, kept);
    DanglingIsSealed(broken, if cut.BeforeLineFeed? then Some(torn) else None, kept, second);
    SealedIsFatal(once, kept, third);
  }

  // --- The log ----------------------------------------------------------------------------------

  function LastOf<T>(xs: seq<T>, n: nat): seq<T> {
    if |xs| <= n then xs else xs[|xs| - n..]
  }

  function MaxEventId<T>(events: seq<Event<T>>): nat {
    if events == [] then 0
    else
      var rest, last := MaxEventId(events[..|events| - 1]), events[|events| - 1].id;
      if last > rest then last else rest
  }

  lemma MaxEventIdIsUpperBound<T>(events: seq<Event<T>>)
    ensures forall e <- events :: e.id <= MaxEventId(events)
  {
    if events != [] {
      MaxEventIdIsUpperBound(events[..|events| - 1]);
      assert events == events[..|events| - 1] + [events[|events| - 1]];
    }
  }

  /** `push_event_window`. */
  function PushWindow<T>(window: seq<T>, capacity: nat, event: T): seq<T> {
    if capacity == 0 then window
    else if |window| == capacity then window[1..] + [event]
    else window + [event]
  }

  lemma PushWindowKeepsLast<T>(all: seq<T>, capacity: nat, event: T)
    ensures PushWindow(LastOf(all, capacity), capacity, event) == LastOf(all + [event], capacity)
  {
  }

  /** The slice a reader asks for, starting no earlier than the oldest retained event. */
  function Slice<T>(all: seq<T>, capacity: nat, offset: nat, limit: nat): seq<T> {
    var oldest := if |all| <= capacity then 0 else |all| - capacity;
    var start := if offset < oldest then oldest else if offset < |all| then offset else |all|;
    var rest := all[start..];
    if limit < |rest| then rest[..limit] else rest
  }

  /** What a reader asks for. */
  function Window<T>(all: seq<T>, offset: nat, limit: nat): seq<T> {
    if offset >= |all| then [] else if limit < |all| - offset then all[offset..offset + limit] else all[offset..]
  }

  /**
   The slice is the window asked for while its offset is retained, and the window from the oldest retained event
   otherwise; entry by entry, it starts at the later of the two and is cut at the limit and at the end of the log.
   */
  lemma SliceReadsLog<T>(all: seq<T>, capacity: nat, offset: nat, limit: nat)
    ensures var page, oldest := Slice(all, capacity, offset, limit), if |all| <= capacity then 0 else |all| - capacity;
            var start := if offset < oldest then oldest else offset;
            && page == Window(all, start, limit)
            && |page| <= limit && (forall i :: 0 <= i < |page| ==> start + i < |all| && page[i] == all[start + i])
            && (|page| < limit ==> start + |page| >= |all|)
            && (capacity + offset >= |all| ==> page == Window(all, offset, limit))
  {
  }

  lemma AppendEndsCleanly<T>(file: LogFile<T>, event: Event<T>)
    ensures EndsCleanly(file) ==> EndsCleanly(AppendRecord(file, event))
  {
  }

  lemma TornIsNotClean<T>(file: LogFile<T>, event: Event<T>, cut: Cut)
    ensures !(EndsCleanly(TornRecord(file, event, cut)) && Readable(TornRecord(file, event, cut)))
  {
    var lines := TornRecord(file, event, cut).lines;
    ReadMeaning(lines);
  }

  class EventLog<T> {
    var nextId: nat
    var totalEvents: nat
    var events: seq<Event<T>>
    const windowCapacity: nat

    /** Whether a path is configured, and the file behind it. */
    const persistent: bool
    var file: LogFile<T>

    /** Every event ever recorded, including those read when the log was opened. */
    ghost var all: seq<Event<T>>

    ghost predicate Valid()
      reads this
    {
      && totalEvents == |all|
      && events == LastOf(all, windowCapacity)
      && (forall e <- all :: e.id <= nextId)
    }

    /** The file, if there is one, holds every event and is ready for the next. */
    ghost predicate Durable()
      reads this
    {
      persistent ==> EndsCleanly(file) && ReadLines(file.lines) == Ok(all)
    }

    /** `open_with_window_capacity` on a file that was read successfully. */
    constructor (persistent: bool, file: LogFile<T>, read: seq<Event<T>>, windowCapacity: nat)
      requires if persistent then ReadLines(file.lines) == Ok(read) else read == []
      ensures Valid() && all == read && nextId == MaxEventId(read)
      ensures this.persistent == persistent && this.file == file && this.windowCapacity == windowCapacity
      ensures Durable() <==> !persistent || EndsCleanly(file)
    {
      this.persistent, this.file, this.windowCapacity := persistent, file, windowCapacity;
      nextId, totalEvents, all := MaxEventId(read), |read|, read;
      events := if |read| > windowCapacity then read[|read| - windowCapacity..] else read;
      MaxEventIdIsUpperBound(read);
    }

    /**
     `record_audit_event_now`. A failed write spends the id but records nothing in memory. Appends that complete or
     fail before writing keep the log durable; a torn write, or a file that did not end cleanly, breaks it.
     */
    method RecordAuditEventNow(body: T, outcome: WriteOutcome) returns (r: Result<(), LogError>)
      requires Valid()
      modifies this
      ensures Valid() && nextId == old(nextId) + 1
      ensures file == if persistent then Performed(old(file), Write(Event(nextId, body), outcome)) else old(file)
      ensures r.Ok? <==> outcome.Written? || !persistent
      ensures r.Ok? ==> all == old(all) + [Event(nextId, body)] && forall e <- old(all) :: e.id < nextId
      ensures r.Err? ==>
                r.error == WriteFailed && all == old(all) && events == old(events) && totalEvents == old(totalEvents)
      ensures old(Durable()) && !outcome.Torn? ==> Durable()
      ensures persistent && outcome.Torn? ==> !Durable()
      ensures persistent && outcome.Written? && !old(EndsCleanly(file)) && old(ReadLines(file.lines) == Ok(all)) ==>
                !Durable()
    {
      nextId := nextId + 1;
      var event := Event(nextId, body);
      if persistent {
        match outcome {
          case NotOpened => return Err(WriteFailed);
          case Torn(cut) =>
            TornIsNotClean(file, event, cut);
            file := TornRecord(file, event, cut);
            return Err(WriteFailed);
          case Written =>
            if Readable(file) {
              AppendIsDurableExactly(file, event);
            }
            AppendEndsCleanly(file, event);
            file := AppendRecord(file, event);
        }
      }
      totalEvents := totalEvents + 1;
      PushWindowKeepsLast(all, windowCapacity, event);
      if windowCapacity != 0 {
        if |events| == windowCapacity {
          events := events[1..];
        }
        events := events + [event];
      }
      all := all + [event];
      r := Ok(());
    }

    /** `window_blocking`: exact while the offset is retained, otherwise from the oldest retained event. */
    method WindowBlocking(offset: nat, limit: nat) returns (total: nat, page: seq<Event<T>>)
      requires Valid()
      ensures total == |all|
      ensures page == Slice(all, windowCapacity, offset, limit)
      ensures windowCapacity + offset >= |all| ==> page == Window(all, offset, limit)
    {
      SliceReadsLog(all, windowCapacity, offset, limit);
      total := totalEvents;
      var retainedOffset := if |events| < total then total - |events| else 0;
      var localOffset := if retainedOffset < offset then offset - retainedOffset else 0;
      var skipped := if localOffset < |events| then events[localOffset..] else [];
      page := if limit < |skipped| then skipped[..limit] else skipped;
    }

    /** Closing and opening again reads back every event: same total, same window. */
    method Reopen() returns (log: EventLog<T>)
      requires Valid() && Durable() && persistent
      ensures fresh(log) && log.Valid() && log.Durable() && log.persistent && log.windowCapacity == windowCapacity
      ensures log.all == all && log.totalEvents == totalEvents && log.events == events && log.file == file
      ensures log.nextId <= nextId
    {
      var read := ReadEventsFromPath(file);
      MaxEventIdIsReached(read.value);
      log := new EventLog(true, file, read.value, windowCapacity);
    }
  }

  /** `open_with_window_capacity`: fails exactly when the file of a persistent log cannot be read. */
  method OpenWithWindowCapacity<T>(persistent: bool, file: LogFile<T>, windowCapacity: nat)
    returns (r: Result<EventLog<T>, LogError>)
    ensures r.Ok? <==> !persistent || Readable(file)
    ensures r.Err? ==> r.error == ReadLines(file.lines).error
    ensures r.Ok? ==>
              && fresh(r.value) && r.value.Valid() && r.value.windowCapacity == windowCapacity
              && r.value.nextId == MaxEventId(r.value.all)
              && r.value.all == (if persistent then ReadLines(file.lines).value else [])
              && (r.value.Durable() <==> !persistent || EndsCleanly(file))
  {
    var read: seq<Event<T>> := [];
    if persistent {
      var replayed := ReadEventsFromPath(file);
      if replayed.Err? {
        return Err(replayed.error);
      }
      read := replayed.value;
    }
    var log := new EventLog(persistent, file, read, windowCapacity);
    r := Ok(log);
  }

  /** Zero without events, otherwise the id of one of them. */
  lemma MaxEventIdIsReached<T>(events: seq<Event<T>>)
    ensures MaxEventId(events) == 0 || exists e <- events :: e.id == MaxEventId(events)
  {
    if events != [] {
      MaxEventIdIsReached(events[..|events| - 1]);
      assert events == events[..|events| - 1] + [events[|events| - 1]];
    }
  }
}
