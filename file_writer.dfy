/**
 * The line-appending sink (BatchFileWriter).  The file system is a
 * `FileStore`: each file's content is the sequence of chunks written to it.
 * Whether a single write succeeds is an oracle (`WriteOutcome`); whether a
 * file can be opened is a parameter of `Open`.
 */
module FileWriter {
  import opened Optional

  /** Whether each of the two writes for one message succeeded: the message, then its newline. */
  datatype WriteOutcome = WriteOutcome(messageOk: bool, newlineOk: bool)

  /** An open of a file, or a close that actually closed an open writer
      (closing a closed writer does nothing). */
  datatype FileEvent = Opened(path: string) | Closed(path: string)

  /** The files on disk, and every open and close made on them. */
  class FileStore {
    var files: map<string, seq<string>>
    ghost var events: seq<FileEvent>

    constructor ()
      ensures files == map[] && events == []
    {
      files := map[];
      events := [];
    }
  }

  /** Every write succeeds. */
  function AllOk(n: nat): (outcomes: seq<WriteOutcome>)
    ensures |outcomes| == n
    ensures forall i :: 0 <= i < n ==> outcomes[i] == WriteOutcome(true, true)
  {
    seq(n, _ => WriteOutcome(true, true))
  }

  /** The chunks that reach the file for one message: the newline is attempted
      only after the message itself was written. */
  function MessageChunks(message: string, outcome: WriteOutcome): (chunks: seq<string>)
    ensures |chunks| <= 2 && chunks == [message, "\n"][..|chunks|]
    ensures chunks == [] <==> !outcome.messageOk
    ensures |chunks| == 2 <==> outcome.messageOk && outcome.newlineOk
  {
    if !outcome.messageOk then []
    else if outcome.newlineOk then [message, "\n"]
    else [message]
  }

  /** The chunks a batch leaves in the file, message by message, in order. */
  function Written(messages: seq<string>, outcomes: seq<WriteOutcome>): (chunks: seq<string>)
    requires |outcomes| == |messages|
    ensures |chunks| <= 2 * |messages|
    ensures (forall i :: 0 <= i < |outcomes| ==> !outcomes[i].messageOk) ==> chunks == []
  {
    if messages == [] then []
    else
      Written(messages[..|messages| - 1], outcomes[..|messages| - 1])
        + MessageChunks(messages[|messages| - 1], outcomes[|messages| - 1])
  }

  /** Each message followed by a newline. */
  function Lines(messages: seq<string>): seq<string>
  {
    if messages == [] then [] else [messages[0], "\n"] + Lines(messages[1..])
  }

  /** The text of a file: its chunks one after another. */
  function Text(chunks: seq<string>): string
  {
    if chunks == [] then [] else chunks[0] + Text(chunks[1..])
  }

  /** A character that ends a line when the file is read back: a line feed or a carriage return. */
  predicate IsLineBreak(c: char)
  {
    c == '\n' || c == '\r'
  }

  /** Where the first line of `s` ends: the first line break, or the end of `s`. */
  function LineEnd(s: string): (i: nat)
    ensures i <= |s|
    ensures i < |s| ==> IsLineBreak(s[i])
    ensures forall j :: 0 <= j < i ==> !IsLineBreak(s[j])
  {
    if s == [] || IsLineBreak(s[0]) then 0 else 1 + LineEnd(s[1..])
  }

  /** Reading a text back line by line (Files.readAllLines): a line ends at
      `"\n"`, `"\r"` or `"\r\n"`, which is not part of it, and a last line
      without a line break still counts. */
  function ReadLines(s: string): (lines: seq<string>)
    ensures lines == [] <==> s == []
    ensures |lines| <= |s|
    ensures forall k :: 0 <= k < |lines| ==> NoNewline(lines[k])
    decreases |s|
  {
    if s == [] then []
    else
      var i := LineEnd(s);
      if i == |s| then [s]
      else
        var next := if s[i] == '\r' && i + 1 < |s| && s[i + 1] == '\n' then i + 2 else i + 1;
        [s[..i]] + ReadLines(s[next..])
  }

  predicate NoNewline(message: string)
  {
    forall j :: 0 <= j < |message| ==> !IsLineBreak(message[j])
  }

  /** A carriage return ends a line. */
  lemma ReadLinesCarriageReturn()
    ensures ReadLines("a\rb") == ["a", "b"]
  {
    var s := "a\rb";
    assert s[2..] == "b" && LineEnd("b") == 1;
    assert ReadLines("b") == ["b"];
    assert LineEnd(s) == 1 && s[..1] == "a";
    assert ReadLines(s) == ["a"] + ReadLines(s[2..]);
  }

  /** A carriage return followed by a line feed ends a single line. */
  lemma ReadLinesCrLf()
    ensures ReadLines("a\r\nb") == ["a", "b"]
  {
    var s := "a\r\nb";
    assert s[3..] == "b" && LineEnd("b") == 1;
    assert ReadLines("b") == ["b"];
    assert LineEnd(s) == 1 && s[..1] == "a";
    assert ReadLines(s) == ["a"] + ReadLines(s[3..]);
  }

  /** A batch can be split anywhere: a failed write does not stop the messages after it. */
  lemma {:induction false} WrittenAppend(a: seq<string>, oa: seq<WriteOutcome>, b: seq<string>, ob: seq<WriteOutcome>)
    requires |oa| == |a| && |ob| == |b|
    ensures Written(a + b, oa + ob) == Written(a, oa) + Written(b, ob)
    decreases |b|
  {
    if b == [] {
      assert a + b == a && oa + ob == oa;
    } else {
      var n := |b| - 1;
      assert (a + b)[..|a + b| - 1] == a + b[..n];
      assert (oa + ob)[..|a + b| - 1] == oa + ob[..n];
      WrittenAppend(a, oa, b[..n], ob[..n]);
    }
  }

  lemma {:induction false} LinesAppend(a: seq<string>, b: seq<string>)
    ensures Lines(a + b) == Lines(a) + Lines(b)
  {
    if a != [] {
      assert (a + b)[1..] == a[1..] + b;
      LinesAppend(a[1..], b);
    } else {
      assert a + b == b;
    }
  }

  /** When every write succeeds, a batch leaves each message followed by a newline. */
  lemma {:induction false} WrittenAllOk(messages: seq<string>)
    ensures Written(messages, AllOk(|messages|)) == Lines(messages)
  {
    if messages != [] {
      var n := |messages| - 1;
      assert AllOk(|messages|)[..n] == AllOk(n);
      WrittenAllOk(messages[..n]);
      LinesAppend(messages[..n], [messages[n]]);
      assert messages[..n] + [messages[n]] == messages;
      assert Lines([messages[n]]) == [messages[n], "\n"] by {
        assert [messages[n]][1..] == [];
      }
    }
  }

  lemma {:induction false} LineEndOf(m: string, rest: string)
    requires NoNewline(m)
    ensures LineEnd(m + "\n" + rest) == |m|
  {
    if m != [] {
      assert (m + "\n" + rest)[1..] == m[1..] + "\n" + rest;
      LineEndOf(m[1..], rest);
    }
  }

  /** Reading back the lines of a file written line by line gives the messages,
      provided none of them holds a newline. */
  lemma {:induction false} ReadLinesOfLines(messages: seq<string>)
    requires forall i :: 0 <= i < |messages| ==> NoNewline(messages[i])
    ensures ReadLines(Text(Lines(messages))) == messages
  {
    if messages != [] {
      var m, rest := messages[0], Text(Lines(messages[1..]));
      assert Text(Lines(messages)) == m + "\n" + rest by {
        assert Lines(messages) == [m, "\n"] + Lines(messages[1..]);
        assert ([m, "\n"] + Lines(messages[1..]))[1..] == ["\n"] + Lines(messages[1..]);
        assert (["\n"] + Lines(messages[1..]))[1..] == Lines(messages[1..]);
      }
      LineEndOf(m, rest);
      var s := m + "\n" + rest;
      assert s[|m|] == '\n' && s[..|m|] == m && s[|m| + 1..] == rest;
      ReadLinesOfLines(messages[1..]);
    }
  }

  /** Writing one more message adds its chunks after the ones already written. */
  lemma WrittenStep(messages: seq<string>, outcomes: seq<WriteOutcome>, i: nat)
    requires |outcomes| == |messages| && i < |messages|
    ensures Written(messages[..i + 1], outcomes[..i + 1])
      == Written(messages[..i], outcomes[..i]) + MessageChunks(messages[i], outcomes[i])
  {
    assert messages[..i + 1][..i] == messages[..i] && outcomes[..i + 1][..i] == outcomes[..i];
  }

  lemma AppendNothing(files: map<string, seq<string>>, path: string)
    requires path in files
    ensures files[path := files[path] + []] == files
  {
    assert files[path] + [] == files[path];
    assert files[path := files[path]] == files;
  }

  lemma UpdateTwice(files: map<string, seq<string>>, path: string, a: seq<string>, b: seq<string>)
    ensures files[path := a][path := b] == files[path := b]
  {
  }

  /** The files after `chunks` are appended to `path`, which is created empty if missing. */
  function Appended(files: map<string, seq<string>>, path: string, chunks: seq<string>): (r: map<string, seq<string>>)
    ensures r.Keys == files.Keys + {path}
    ensures r[path] == (if path in files then files[path] else []) + chunks
    ensures forall p :: p in files && p != path ==> r[p] == files[p]
  {
    files[path := (if path in files then files[path] else []) + chunks]
  }

  /** Opening a file and then appending to it appends to the file as it was,
      or to an empty one. */
  lemma AppendedAfterOpen(files: map<string, seq<string>>, path: string, chunks: seq<string>)
    ensures var created := Appended(files, path, []);
      created[path := created[path] + chunks] == Appended(files, path, chunks)
  {
    var before := if path in files then files[path] else [];
    assert before + [] + chunks == before + chunks;
    UpdateTwice(files, path, before + [], before + chunks);
  }

  class BatchFileWriter {
    const store: FileStore
    const path: string
    /** Whether the underlying writer is still open. */
    var open: bool

    ghost predicate Valid()
      reads this, store
    {
      path in store.files
    }

    /** Wraps an already open writer on `path`. */
    constructor Wrap(store: FileStore, path: string)
      requires path in store.files
      ensures Valid()
      ensures this.store == store && this.path == path && open
    {
      this.store := store;
      this.path := path;
      open := true;
    }

    /** One write of a chunk: it reaches the file only if the writer is open
        and the write succeeds. */
    method WriteChunk(chunk: string, succeeds: bool) returns (written: bool)
      requires Valid()
      modifies store
      ensures Valid()
      ensures written <==> open && succeeds
      ensures store.files == old(store.files)[path := old(store.files)[path] + (if written then [chunk] else [])]
      ensures store.events == old(store.events)
    {
      written := open && succeeds;
      if written {
        store.files := store.files[path := store.files[path] + [chunk]];
      } else {
        AppendNothing(store.files, path);
      }
    }

    /** One turn of handle's loop: the message, then -- only if that write
        succeeded -- its newline. */
    method WriteMessage(message: string, outcome: WriteOutcome)
      requires Valid()
      modifies store
      ensures Valid()
      ensures store.files == old(store.files)[path := store.files[path]]
      ensures store.files[path] == old(store.files)[path] + (if open then MessageChunks(message, outcome) else [])
      ensures store.events == old(store.events)
    {
      ghost var before := store.files[path];
      var written := WriteChunk(message, outcome.messageOk);
      if written {
        written := WriteChunk("\n", outcome.newlineOk);
        assert store.files[path] == before + MessageChunks(message, outcome);
      } else {
        assert store.files[path] == before + (if open then MessageChunks(message, outcome) else []);
      }
    }

    /** handle: writes each message and then a newline, in order; a failed
        write is logged and skipped, and the batch always counts as handled. */
    method Handle(messages: seq<string>, outcomes: seq<WriteOutcome>) returns (handled: bool)
      requires Valid() && |outcomes| == |messages|
      modifies store
      ensures Valid()
      ensures handled
      ensures store.files == old(store.files)[path := old(store.files)[path] + (if open then Written(messages, outcomes) else [])]
      ensures store.events == old(store.events)
    {
      for i := 0 to |messages|
        invariant Valid()
        invariant store.files == old(store.files)[path := store.files[path]]
        invariant store.files[path] == old(store.files)[path] + (if open then Written(messages[..i], outcomes[..i]) else [])
        invariant store.events == old(store.events)
      {
        WriteMessage(messages[i], outcomes[i]);
        WrittenStep(messages, outcomes, i);
      }
      assert messages[..|messages|] == messages && outcomes[..|outcomes|] == outcomes;
      handled := true;
    }

    /** done: closes the writer; a failure to close is only logged, and closing
        a closed writer does nothing. */
    method Done()
      requires Valid()
      modifies this, store
      ensures Valid()
      ensures !open
      ensures store.files == old(store.files)
      ensures store.events == old(store.events) + (if old(open) then [Closed(path)] else [])
    {
      if open {
        store.events := store.events + [Closed(path)];
      }
      open := false;
    }
  }

  /** Opens `path` for appending, creating it empty if it does not exist;
      `opens` says whether the file system lets it be opened. */
  method Open(store: FileStore, path: string, opens: bool) returns (w: Option<BatchFileWriter>)
    modifies store
    ensures opens <==> w.Some?
    ensures w.Some? ==> fresh(w.value) && w.value.Valid() && w.value.open
    ensures w.Some? ==> w.value.store == store && w.value.path == path
    ensures opens ==> store.files == Appended(old(store.files), path, [])
    ensures opens ==> store.events == old(store.events) + [Opened(path)]
    ensures !opens ==> store.files == old(store.files) && store.events == old(store.events)
  {
    if !opens {
      return None;
    }
    if path !in store.files {
      store.files := store.files[path := []];
      assert store.files[path] + [] == store.files[path];
    } else {
      AppendNothing(store.files, path);
    }
    store.events := store.events + [Opened(path)];
    var writer := new BatchFileWriter.Wrap(store, path);
    w := Some(writer);
  }

  /** A writer opened on `path`, handed one batch whose writes all succeed, then
      closed: the batch's lines are appended to the file. */
  method WriteBatch(store: FileStore, path: string, batch: seq<string>)
    modifies store
    ensures store.files == Appended(old(store.files), path, Lines(batch))
    ensures store.events == old(store.events) + [Opened(path), Closed(path)]
  {
    var w := Open(store, path, true);
    var handled := w.value.Handle(batch, AllOk(|batch|));
    w.value.Done();
    WrittenAllOk(batch);
    AppendedAfterOpen(old(store.files), path, Lines(batch));
  }

  /** doesAppendToFile: two writers opened one after the other on the same
      file; reading the file back gives the first writer's lines and then the
      second one's. */
  method AppendScenario(path: string, first: seq<string>, second: seq<string>) returns (lines: seq<string>)
    requires forall i :: 0 <= i < |first| ==> NoNewline(first[i])
    requires forall i :: 0 <= i < |second| ==> NoNewline(second[i])
    ensures lines == first + second
  {
    var store := new FileStore();
    WriteBatch(store, path, first);
    WriteBatch(store, path, second);
    LinesAppend(first, second);
    assert store.files[path] == [] + Lines(first) + Lines(second);
    assert store.files[path] == Lines(first + second);
    assert forall i :: 0 <= i < |first + second| ==> NoNewline((first + second)[i]) by {
      forall i | 0 <= i < |first + second|
        ensures NoNewline((first + second)[i])
      {
        if i >= |first| {
          assert (first + second)[i] == second[i - |first|];
        }
      }
    }
    ReadLinesOfLines(first + second);
    lines := ReadLines(Text(store.files[path]));
  }

  /** A writer whose every write fails still reports the batch as handled and
      leaves the file as it was. */
  method FailingWritesScenario() returns (handled: bool, content: seq<string>, ghost events: seq<FileEvent>)
    ensures handled && content == []
    ensures events == [Opened("test.txt"), Closed("test.txt")]
  {
    var store := new FileStore();
    var w := Open(store, "test.txt", true);
    handled := w.value.Handle(["test 1-2", "test 3-4"], [WriteOutcome(false, false), WriteOutcome(false, false)]);
    w.value.Done();
    assert Written(["test 1-2", "test 3-4"], [WriteOutcome(false, false), WriteOutcome(false, false)]) == [] by {
      assert ["test 1-2", "test 3-4"][..1] == ["test 1-2"];
      assert [WriteOutcome(false, false), WriteOutcome(false, false)][..1] == [WriteOutcome(false, false)];
    }
    content := store.files["test.txt"];
    events := store.events;
  }
}
