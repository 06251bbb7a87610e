/**
 * The hourly rolling sink (RollingBatchFileWriter).  Each batch goes to the
 * file whose name is the base path stamped with the current UTC hour; when
 * the hour changes, the previous file is closed and the next one opened.
 * The clock is the parameter `now` (epoch milliseconds); whether a file can
 * be opened is the parameter `opens`.
 */
module RollingFileWriter {
  import opened Optional
  import opened IsoDateHour
  import opened FileWriter

  /** String.lastIndexOf: the last position of `c` in `s`, or -1. */
  function LastIndexOf(s: string, c: char): (i: int)
    ensures -1 <= i < |s|
    ensures i == -1 <==> c !in s
    ensures 0 <= i ==> s[i] == c && c !in s[i + 1..]
  {
    if s == [] then -1
    else if s[|s| - 1] == c then |s| - 1
    else
      var init := s[..|s| - 1];
      var i := LastIndexOf(init, c);
      assert s == init + [s[|s| - 1]];
      if i < 0 then i
      else
        assert s[i + 1..] == init[i + 1..] + [s[|s| - 1]];
        i
  }

  /** Where the stamp goes in the names made from `basePath`: at its last dot,
      or at its end when it has none. */
  function StampPosition(basePath: string): (k: nat)
    ensures k <= |basePath|
    ensures k < |basePath| <==> '.' in basePath
    ensures k < |basePath| ==> basePath[k] == '.' && '.' !in basePath[k + 1..]
  {
    if '.' in basePath then LastIndexOf(basePath, '.') else |basePath|
  }

  /** createFileName with the stamp already formatted: the stamp goes before
      the suffix that follows the last dot of the base path, or at the end when
      there is no dot.  Nothing of the base path is lost: the name is one
      character longer than the base path and the stamp together. */
  function StampedName(basePath: string, stamp: string): (name: string)
    ensures |name| == |basePath| + 1 + |stamp|
  {
    if '.' in basePath then
      var endIndex := LastIndexOf(basePath, '.');
      var fileName := basePath[..endIndex];
      var suffix := basePath[endIndex + 1..];
      fileName + "-" + stamp + "." + suffix
    else
      basePath + "-" + stamp
  }

  /** createFileName: the base path stamped with the UTC hour of `now`. */
  function CreateFileName(basePath: string, now: int): (name: string)
    ensures |name| == |basePath| + 1 + |DateHourStamp(now)|
  {
    StampedName(basePath, DateHourStamp(now))
  }

  /** A stamped name is the base path with `-` and the stamp inserted at the
      stamp position: the part before is the base path up to its last dot, the
      part after is the dot and the suffix, and taking the insertion out again
      gives the base path back. */
  lemma FileNameSplit(basePath: string, stamp: string)
    ensures var k, name := StampPosition(basePath), StampedName(basePath, stamp);
      |name| == |basePath| + 1 + |stamp|
      && name[..k] == basePath[..k]
      && name[k] == '-'
      && name[k + 1..k + 1 + |stamp|] == stamp
      && name[k + 1 + |stamp|..] == basePath[k..]
      && name[..k] + name[k + 1 + |stamp|..] == basePath
  {
    var k, name := StampPosition(basePath), StampedName(basePath, stamp);
    assert name == basePath[..k] + "-" + stamp + basePath[k..] by {
      if '.' in basePath {
        assert basePath[k..] == "." + basePath[k + 1..];
      } else {
        assert basePath[..k] == basePath && basePath[k..] == [];
      }
    }
    assert basePath[..k] + basePath[k..] == basePath;
  }

  /** Different stamps give different names from the same base path. */
  lemma StampedNameInjective(basePath: string, s1: string, s2: string)
    ensures StampedName(basePath, s1) == StampedName(basePath, s2) <==> s1 == s2
  {
    if StampedName(basePath, s1) == StampedName(basePath, s2) {
      FileNameSplit(basePath, s1);
      FileNameSplit(basePath, s2);
    }
  }

  /** The file name changes exactly when the hour changes (for years 0 to 9999,
      where the stamp has four year digits). */
  lemma FileNameChangesWithHour(basePath: string, m1: int, m2: int)
    requires 0 <= DateHourOf(m1).year < 10000 && 0 <= DateHourOf(m2).year < 10000
    ensures CreateFileName(basePath, m1) == CreateFileName(basePath, m2)
      <==> m1 / MillisPerHour == m2 / MillisPerHour
  {
    StampedNameInjective(basePath, DateHourStamp(m1), DateHourStamp(m2));
    if m1 / MillisPerHour == m2 / MillisPerHour {
      SameHourSameStamp(m1, m2);
    } else {
      DifferentHourDifferentStamp(m1, m2);
    }
  }

  /** The test names: `test.log` becomes `test-2013-08-13T15.log`. */
  lemma FileNameWithSuffix()
    ensures StampedName("test.log", "2013-08-13T15") == "test-2013-08-13T15.log"
  {
    var b := "test.log";
    assert LastIndexOf(b, '.') == 4;
  }

  /** A base path without a dot gets the stamp at its end. */
  lemma FileNameWithoutSuffix()
    ensures StampedName("test", "2013-08-13T15") == "test-2013-08-13T15"
  {
  }

  /** Only the last dot separates the suffix. */
  lemma FileNameWithSeveralDots()
    ensures StampedName("test.somemore.log", "2013-08-13T15") == "test.somemore-2013-08-13T15.log"
  {
    var b := "test.somemore.log";
    assert LastIndexOf(b, '.') == 13;
  }

  /** Dots in directory names are kept when the file name has a suffix. */
  lemma FileNameWithDottedDirectory()
    ensures StampedName("/home/bla/karli.lotti/test.log", "2013-08-13T15")
      == "/home/bla/karli.lotti/test-2013-08-13T15.log"
  {
    var b := "/home/bla/karli.lotti/test.log";
    assert LastIndexOf(b, '.') == 26;
  }

  class RollingBatchFileWriter {
    const basePath: string
    const store: FileStore
    /** The writer on the current file; after a failed open, the previous (closed) one. */
    var writer: Option<BatchFileWriter>
    var currentFile: Option<string>

    ghost function Footprint(): set<object>
      reads this
    {
      {this, store} + (if writer.Some? then {writer.value} else {})
    }

    ghost predicate Valid()
      reads this, store, Footprint()
    {
      (writer.Some? <==> currentFile.Some?)
      && (writer.Some? ==>
            writer.value.store == store && writer.value.path == currentFile.value && writer.value.Valid())
    }

    constructor (basePath: string, store: FileStore)
      ensures Valid()
      ensures this.basePath == basePath && this.store == store
      ensures writer == None && currentFile == None
    {
      this.basePath := basePath;
      this.store := store;
      writer := None;
      currentFile := None;
    }

    /** createWriter: reopens when the computed path differs from the current
        file, closing the previous writer first; `ok` is false when the open fails. */
    method CreateWriter(now: int, opens: bool) returns (ok: bool)
      requires Valid()
      modifies this, Footprint()
      ensures Valid()
      ensures var path := CreateFileName(basePath, now);
        ok <==> old(currentFile) == Some(path) || opens
      ensures var path := CreateFileName(basePath, now);
        old(currentFile) == Some(path) ==>
          writer == old(writer) && currentFile == old(currentFile)
          && store.files == old(store.files) && store.events == old(store.events)
          && writer.value.open == old(writer.value.open)
      ensures var path := CreateFileName(basePath, now);
        old(currentFile) != Some(path) ==>
          store.events == old(store.events)
            + (if old(writer).Some? && old(writer.value.open) then [Closed(old(writer).value.path)] else [])
            + (if opens then [Opened(path)] else [])
      ensures var path := CreateFileName(basePath, now);
        old(currentFile) != Some(path) && opens ==>
          currentFile == Some(path) && writer.Some? && fresh(writer.value) && writer.value.open
          && store.files == Appended(old(store.files), path, [])
      ensures var path := CreateFileName(basePath, now);
        old(currentFile) != Some(path) && !opens ==>
          currentFile == old(currentFile) && writer == old(writer)
          && store.files == old(store.files)
          && (writer.Some? ==> !writer.value.open)
    {
      var newPath := CreateFileName(basePath, now);
      if currentFile != Some(newPath) {
        if writer.Some? {
          writer.value.Done();
        }
        var w := Open(store, newPath, opens);
        if w.None? {
          return false;
        }
        writer := w;
        currentFile := Some(newPath);
      }
      ok := true;
    }

    /** handle: a batch goes to the file of the current hour; when that file
        cannot be opened the batch is dropped and still reported handled. */
    method Handle(messages: seq<string>, now: int, opens: bool, outcomes: seq<WriteOutcome>) returns (handled: bool)
      requires Valid() && |outcomes| == |messages|
      modifies this, Footprint()
      ensures Valid()
      ensures handled
      ensures var path := CreateFileName(basePath, now);
        old(currentFile) == Some(path) ==>
          writer == old(writer) && currentFile == old(currentFile) && store.events == old(store.events)
          && writer.value.open == old(writer.value.open)
          && store.files == Appended(old(store.files), path,
                                     if old(writer.value.open) then Written(messages, outcomes) else [])
      ensures var path := CreateFileName(basePath, now);
        old(currentFile) != Some(path) ==>
          store.events == old(store.events)
            + (if old(writer).Some? && old(writer.value.open) then [Closed(old(writer).value.path)] else [])
            + (if opens then [Opened(path)] else [])
      ensures var path := CreateFileName(basePath, now);
        old(currentFile) != Some(path) && opens ==>
          currentFile == Some(path) && writer.Some? && fresh(writer.value) && writer.value.open
          && store.files == Appended(old(store.files), path, Written(messages, outcomes))
      ensures var path := CreateFileName(basePath, now);
        old(currentFile) != Some(path) && !opens ==>
          currentFile == old(currentFile) && writer == old(writer) && store.files == old(store.files)
          && (writer.Some? ==> !writer.value.open)
    {
      ghost var path := CreateFileName(basePath, now);
      var ok := CreateWriter(now, opens);
      if !ok {
        return true;
      }
      ghost var files := store.files;
      ghost var chunks := if writer.value.open then Written(messages, outcomes) else [];
      handled := writer.value.Handle(messages, outcomes);
      if old(currentFile) != Some(path) {
        AppendedAfterOpen(old(store.files), path, chunks);
      }
    }

    /** done: closes the current writer, if there is one. */
    method Done()
      requires Valid()
      modifies Footprint()
      ensures Valid()
      ensures writer == old(writer) && currentFile == old(currentFile)
      ensures writer.Some? ==> !writer.value.open
      ensures store.files == old(store.files)
      ensures store.events == old(store.events)
        + (if writer.Some? && old(writer.value.open) then [Closed(writer.value.path)] else [])
    {
      if writer.Some? {
        writer.value.Done();
      }
    }
  }

  /** A new rolling writer that handles its first batch opens the file of that
      hour and writes the batch there, line by line. */
  method FirstHour(basePath: string, t: int, b: seq<string>) returns (store: FileStore, rolling: RollingBatchFileWriter)
    ensures fresh(store) && fresh(rolling) && rolling.writer.Some? && fresh(rolling.writer.value)
    ensures rolling.Valid() && rolling.store == store && rolling.basePath == basePath
    ensures var f := CreateFileName(basePath, t);
      rolling.currentFile == Some(f) && rolling.writer.value.open
      && store.events == [Opened(f)] && store.files == map[f := Lines(b)]
  {
    WrittenAllOk(b);
    store := new FileStore();
    rolling := new RollingBatchFileWriter(basePath, store);
    ghost var f := CreateFileName(basePath, t);
    var handled := rolling.Handle(b, t, true, AllOk(|b|));
    assert store.files == Appended(map[], f, Lines(b));
    assert [] + Lines(b) == Lines(b);
  }

  /** A batch handled in the hour of the open file is appended to it, line by
      line, and the writer stays open. */
  method SameHourBatch(rolling: RollingBatchFileWriter, t: int, b: seq<string>)
    requires rolling.Valid() && rolling.currentFile == Some(CreateFileName(rolling.basePath, t))
    requires rolling.writer.value.open
    modifies rolling, rolling.Footprint()
    ensures rolling.Valid() && rolling.writer == old(rolling.writer) && rolling.currentFile == old(rolling.currentFile)
    ensures rolling.writer.value.open
    ensures var f := rolling.currentFile.value;
      rolling.store.files == old(rolling.store.files)[f := old(rolling.store.files[f]) + Lines(b)]
    ensures rolling.store.events == old(rolling.store.events)
  {
    WrittenAllOk(b);
    var handled := rolling.Handle(b, t, true, AllOk(|b|));
  }

  /** doesWriteToFileWithGeneratedTimestamp, with a second batch: batches
      handled within one hour both go to that hour's file, one after the other,
      and the file is closed once, by done. */
  method SameHourScenario(basePath: string, t1: int, t2: int, b1: seq<string>, b2: seq<string>)
    returns (content: seq<string>, ghost events: seq<FileEvent>)
    requires t1 / MillisPerHour == t2 / MillisPerHour
    ensures content == Lines(b1 + b2)
    ensures events == [Opened(CreateFileName(basePath, t1)), Closed(CreateFileName(basePath, t1))]
  {
    var f := CreateFileName(basePath, t1);
    SameHourSameStamp(t1, t2);
    LinesAppend(b1, b2);

    var store, rolling := FirstHour(basePath, t1, b1);
    SameHourBatch(rolling, t2, b2);
    assert store.files == map[f := Lines(b1 + b2)];

    rolling.Done();
    events := store.events;
    content := store.files[f];
  }

  /** willSwitchFileWhenHourChanges: two batches handled in different hours go
      to two files; each file holds exactly its own batch, line by line, and the
      first file is closed before the second is opened. */
  method RotationScenario(basePath: string, t1: int, t2: int, b1: seq<string>, b2: seq<string>)
    returns (first: seq<string>, second: seq<string>, ghost events: seq<FileEvent>)
    requires t1 / MillisPerHour != t2 / MillisPerHour
    requires 0 <= DateHourOf(t1).year < 10000 && 0 <= DateHourOf(t2).year < 10000
    ensures first == Lines(b1) && second == Lines(b2)
    ensures var f1, f2 := CreateFileName(basePath, t1), CreateFileName(basePath, t2);
      events == [Opened(f1), Closed(f1), Opened(f2), Closed(f2)]
  {
    var f1, f2 := CreateFileName(basePath, t1), CreateFileName(basePath, t2);
    FileNameChangesWithHour(basePath, t1, t2);
    WrittenAllOk(b2);

    var store, rolling := FirstHour(basePath, t1, b1);
    var handled := rolling.Handle(b2, t2, true, AllOk(|b2|));
    assert rolling.currentFile == Some(f2);
    assert store.events == [Opened(f1), Closed(f1), Opened(f2)];
    assert store.files[f1] == Lines(b1) && store.files[f2] == Lines(b2);

    rolling.Done();
    events := store.events;
    first := store.files[f1];
    second := store.files[f2];
  }

  /** The two instants of the rotation test, 15:23:23.999 and 16:23:23.999 UTC on
      2013-08-13, fall in different hours and name the files the test expects. */
  lemma RotationTestHours()
    ensures 1376407403999 / MillisPerHour != 1376411003999 / MillisPerHour
    ensures DateHourOf(1376407403999).year == 2013 && DateHourOf(1376411003999).year == 2013
    ensures CreateFileName("test", 1376407403999) == "test-2013-08-13T15"
    ensures CreateFileName("test", 1376411003999) == "test-2013-08-13T16"
  {
    ExampleDateHour();
    ExampleNextDateHour();
    FirstTestName();
    SecondTestName();
  }

  lemma FirstTestName()
    ensures CreateFileName("test", 1376407403999) == "test-2013-08-13T15"
  {
    StampExample();
    assert CreateFileName("test", 1376407403999) == StampedName("test", "2013-08-13T15");
    FileNameWithoutSuffix();
  }

  lemma SecondTestName()
    ensures CreateFileName("test", 1376411003999) == "test-2013-08-13T16"
  {
    StampExampleNextHour();
    assert CreateFileName("test", 1376411003999) == StampedName("test", "2013-08-13T16");
    FileNameWithoutSuffixNextHour();
  }

  lemma FileNameWithoutSuffixNextHour()
    ensures StampedName("test", "2013-08-13T16") == "test-2013-08-13T16"
  {
  }

  /** When the file cannot be opened the batch is dropped, reported handled,
      and no current file is recorded. */
  method OpenFailsScenario() returns (handled: bool, current: Option<string>, files: map<string, seq<string>>)
    ensures handled && current == None && files == map[]
  {
    var store := new FileStore();
    var rolling := new RollingBatchFileWriter("test", store);
    handled := rolling.Handle(["test 1-2"], 1376407403999, false, AllOk(1));
    current := rolling.currentFile;
    files := store.files;
  }
}
