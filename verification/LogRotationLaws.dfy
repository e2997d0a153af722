/** No log byte is lost: what the files of a day and the buffer hold, over whole runs of
    the writer. */
module LogRotationLaws {
  import opened Bytes
  import opened LogRotation

  /** The rotated files of a day in the order of their rotation, read as one. */
  function Joined(c: Config, files: Files, d: string, stamps: seq<string>): seq<byte> {
    if stamps == [] then []
    else
      var n := |stamps| - 1;
      Joined(c, files, d, stamps[..n]) + Content(files, RotatedPath(c.base, d, stamps[n]))
  }

  function Pending(l: Log, d: string): seq<byte> {
    if l.open && l.date == d then Sanitized(l.buffer) else []
  }

  /** Rotated files, then the current file, then the sanitised buffer. */
  function DayBytes(c: Config, l: Log, d: string, stamps: seq<string>): seq<byte> {
    Joined(c, l.files, d, stamps) + (Content(l.files, PathForDate(c.base, d)) + Pending(l, d))
  }

  ghost predicate SameRotated(c: Config, a: Files, b: Files, d: string, stamps: seq<string>) {
    forall s :: s in stamps ==> Content(a, RotatedPath(c.base, d, s)) == Content(b, RotatedPath(c.base, d, s))
  }

  lemma {:induction false} JoinedSame(c: Config, a: Files, b: Files, d: string, stamps: seq<string>)
    requires SameRotated(c, a, b, d, stamps)
    ensures Joined(c, a, d, stamps) == Joined(c, b, d, stamps)
    decreases |stamps|
  {
    if stamps != [] {
      var n := |stamps| - 1;
      assert stamps[n] in stamps;
      JoinedSame(c, a, b, d, stamps[..n]);
    }
  }

  /** Appending to a day's file changes no rotated file and no other day's file. */
  lemma AppendedElsewhere(c: Config, files: Files, e: string, more: seq<byte>, d: string, stamps: seq<string>)
    ensures var files' := Appended(files, PathForDate(c.base, e), more);
            && Joined(c, files', d, stamps) == Joined(c, files, d, stamps)
            && Content(files', PathForDate(c.base, d)) ==
               Content(files, PathForDate(c.base, d)) + if d == e then more else []
  {
  }

  lemma FlushedKeeps(c: Config, l: Log, d: string, stamps: seq<string>)
    ensures DayBytes(c, Flushed(c, l), d, stamps) == DayBytes(c, l, d, stamps)
  {
    AppendedElsewhere(c, l.files, l.date, Sanitized(l.buffer), d, stamps);
    var content := Content(l.files, PathForDate(c.base, d));
    assert content + Sanitized(l.buffer) + [] == content + Sanitized(l.buffer);
    assert content + [] + [] == content + [];
  }

  lemma EnsuredKeeps(c: Config, l: Log, today: string, d: string, stamps: seq<string>)
    ensures DayBytes(c, Ensured(c, l, today), d, stamps) == DayBytes(c, l, d, stamps)
  {
    FlushedKeeps(c, l, d, stamps);
    var l1 := Flushed(c, l);
    AppendedElsewhere(c, l1.files, today, [], d, stamps);
    assert Pending(l1, d) == [];
  }

  lemma Regroup(a: seq<byte>, b: seq<byte>, p: seq<byte>, m: seq<byte>)
    ensures a + (b + (p + m)) == a + (b + p) + m
    ensures p == [] ==> a + (b + m + p) == a + (b + p) + m
    ensures m == [] ==> b + m == b && p + m == p
  {
  }

  lemma PendingAfter(l: Log, buf: seq<byte>, d: string)
    requires l.open
    ensures Pending(l.(buffer := l.buffer + buf), d) == Pending(l, d) + if d == l.date then Sanitized(buf) else []
  {
    SanitizedAppend(l.buffer, buf);
  }

  lemma PlacedAdds(c: Config, l: Log, buf: seq<byte>, d: string, stamps: seq<string>)
    requires l.open && (|buf| >= c.capacity ==> l.buffer == [])
    ensures DayBytes(c, Placed(c, l, buf), d, stamps) ==
            DayBytes(c, l, d, stamps) + if d == l.date then Sanitized(buf) else []
  {
    var more := if d == l.date then Sanitized(buf) else [];
    Regroup(Joined(c, l.files, d, stamps), Content(l.files, PathForDate(c.base, d)), Pending(l, d), more);
    if |buf| >= c.capacity {
      AppendedElsewhere(c, l.files, l.date, Sanitized(buf), d, stamps);
    } else {
      PendingAfter(l, buf, d);
    }
  }

  lemma BufferedAdds(c: Config, l: Log, buf: seq<byte>, d: string, stamps: seq<string>)
    requires l.open
    ensures DayBytes(c, Buffered(c, l, buf), d, stamps) ==
            DayBytes(c, l, d, stamps) + if d == l.date then Sanitized(buf) else []
  {
    FlushedKeeps(c, l, d, stamps);
    PlacedAdds(c, if |l.buffer| + |buf| > c.capacity then Flushed(c, l) else l, buf, d, stamps);
  }

  ghost predicate StampsExist(c: Config, files: Files, d: string, stamps: seq<string>) {
    forall s :: s in stamps ==> RotatedPath(c.base, d, s) in files
  }

  /** A rotation to a new name only moves bytes. */
  lemma RotatedKeeps(c: Config, l: Log, stamp: string, d: string, stamps: seq<string>)
    requires TooLarge(c, l) && l.buffer == [] && StampsExist(c, l.files, d, stamps)
    requires RotatedPath(c.base, l.date, stamp) !in l.files
    ensures var l', stamps' := Rotated(c, l, stamp), if d == l.date then stamps + [stamp] else stamps;
            DayBytes(c, l', d, stamps') == DayBytes(c, l, d, stamps) && StampsExist(c, l'.files, d, stamps')
  {
    var l' := Rotated(c, l, stamp);
    PathsDiffer(c.base, l.date, l.date, stamp, stamp);
    PathsDiffer(c.base, l.date, d, stamp, stamp);
    PathsDiffer(c.base, d, l.date, stamp, stamp);
    forall s | s in stamps
      ensures Content(l'.files, RotatedPath(c.base, d, s)) == Content(l.files, RotatedPath(c.base, d, s))
    {
      PathsDiffer(c.base, l.date, d, s, stamp);
      PathsDiffer(c.base, d, l.date, s, stamp);
    }
    JoinedSame(c, l'.files, l.files, d, stamps);
    if d == l.date {
      assert (stamps + [stamp])[..|stamps|] == stamps;
      var joined, content := Joined(c, l.files, d, stamps), l.files[Current(c, l)];
      assert joined + content + ([] + []) == joined + (content + []);
    }
  }

  // ------------------------------------------------------------ whole runs

  function After(c: Config, l: Log, calls: seq<Call>): Log {
    if calls == [] then l
    else
      var n := |calls| - 1;
      Step(c, After(c, l, calls[..n]), calls[n])
  }

  function AcceptedBy(call: Call, d: string): seq<byte> {
    if call.Write? && call.today == d then call.buf else []
  }

  /** The bytes written on a day. */
  function Accepted(calls: seq<Call>, d: string): seq<byte> {
    if calls == [] then []
    else
      var n := |calls| - 1;
      Accepted(calls[..n], d) + AcceptedBy(calls[n], d)
  }

  function StampsOf(c: Config, l: Log, calls: seq<Call>, d: string): seq<string> {
    if calls == [] then []
    else
      var n := |calls| - 1;
      var before := StampsOf(c, l, calls[..n], d);
      if Rotates(c, After(c, l, calls[..n]), calls[n]) && calls[n].today == d then before + [calls[n].stamp] else before
  }

  /** Where a call rotates to. */
  function TargetOf(c: Config, call: Call): Path
    requires call.Write?
  {
    RotatedPath(c.base, call.today, call.stamp)
  }

  /** No rotation meets a file that is already there. */
  predicate FreshStamps(c: Config, l: Log, calls: seq<Call>) {
    calls == [] ||
    var n := |calls| - 1;
    var before := After(c, l, calls[..n]);
    FreshStamps(c, l, calls[..n])
    && (Rotates(c, before, calls[n]) ==> TargetOf(c, calls[n]) !in BeforeRotation(c, before, calls[n]).files)
  }

  lemma BeforeRotationShape(c: Config, l: Log, call: Call)
    requires call.Write?
    ensures var l' := BeforeRotation(c, l, call);
            l'.open && l'.date == call.today && (Rotates(c, l, call) ==> l'.buffer == [])
  {
  }

  lemma FilesStay(c: Config, l: Log, call: Call, p: Path)
    requires p in l.files
    ensures call.Write? ==> p in BeforeRotation(c, l, call).files
    ensures p in Step(c, l, call).files
  {
  }

  lemma CounterHoldsNoBytes(c: Config, l: Log, n: nat, d: string, stamps: seq<string>)
    ensures DayBytes(c, l.(sinceFlush := n), d, stamps) == DayBytes(c, l, d, stamps)
  {
  }

  lemma BeforeRotationAdds(c: Config, l: Log, call: Call, d: string, stamps: seq<string>)
    requires call.Write?
    ensures DayBytes(c, BeforeRotation(c, l, call), d, stamps) ==
            DayBytes(c, l, d, stamps) + Sanitized(AcceptedBy(call, d))
  {
    var l0 := Ensured(c, l, call.today);
    var l1 := Buffered(c, l0, call.buf);
    var l2 := l1.(sinceFlush := l1.sinceFlush + |call.buf|);
    EnsuredKeeps(c, l, call.today, d, stamps);
    BufferedAdds(c, l0, call.buf, d, stamps);
    CounterHoldsNoBytes(c, l1, l2.sinceFlush, d, stamps);
    FlushedKeeps(c, l2, d, stamps);
    CounterHoldsNoBytes(c, Flushed(c, l2), 0, d, stamps);
  }

  lemma StepAdds(c: Config, l: Log, call: Call, d: string, stamps: seq<string>)
    requires StampsExist(c, l.files, d, stamps)
    requires Rotates(c, l, call) ==> TargetOf(c, call) !in BeforeRotation(c, l, call).files
    ensures var stamps' := if Rotates(c, l, call) && call.today == d then stamps + [call.stamp] else stamps;
            && DayBytes(c, Step(c, l, call), d, stamps') == DayBytes(c, l, d, stamps) + Sanitized(AcceptedBy(call, d))
            && StampsExist(c, Step(c, l, call).files, d, stamps')
  {
    forall s | s in stamps
      ensures call.Write? ==> RotatedPath(c.base, d, s) in BeforeRotation(c, l, call).files
      ensures RotatedPath(c.base, d, s) in Step(c, l, call).files
    {
      FilesStay(c, l, call, RotatedPath(c.base, d, s));
    }
    if call.Flush? {
      FlushedKeeps(c, l, d, stamps);
      assert DayBytes(c, l, d, stamps) + [] == DayBytes(c, l, d, stamps);
    } else {
      BeforeRotationAdds(c, l, call, d, stamps);
      BeforeRotationShape(c, l, call);
      if Rotates(c, l, call) {
        RotatedKeeps(c, BeforeRotation(c, l, call), call.stamp, d, stamps);
      }
    }
  }

  lemma SanitizedAfter(x: seq<byte>, a: seq<byte>, b: seq<byte>)
    ensures x + Sanitized(a) + Sanitized(b) == x + Sanitized(a + b)
  {
    SanitizedAppend(a, b);
  }

  /** Over any run whose rotations all meet new names, the rotated files of a day in order,
      its current file and the sanitised buffer are what was there before and then, byte
      for byte, the sanitised writes of that day. */
  lemma {:induction false} NoBytesLost(c: Config, l: Log, calls: seq<Call>, d: string)
    requires FreshStamps(c, l, calls)
    ensures var stamps := StampsOf(c, l, calls, d);
            && DayBytes(c, After(c, l, calls), d, stamps) == DayBytes(c, l, d, []) + Sanitized(Accepted(calls, d))
            && StampsExist(c, After(c, l, calls).files, d, stamps)
    decreases |calls|
  {
    if calls == [] {
      assert DayBytes(c, l, d, []) + [] == DayBytes(c, l, d, []);
    } else {
      var n := |calls| - 1;
      NoBytesLost(c, l, calls[..n], d);
      StepAdds(c, After(c, l, calls[..n]), calls[n], d, StampsOf(c, l, calls[..n], d));
      SanitizedAfter(DayBytes(c, l, d, []), Accepted(calls[..n], d), AcceptedBy(calls[n], d));
    }
  }

  // ------------------------------------------------------------ how much is kept, exactly

  /** The bytes in all files. */
  ghost function Total(files: Files): nat {
    if files == map[] then 0
    else
      var p :| p in files;
      |files[p]| + Total(files - {p})
  }

  lemma {:induction false} TotalRemove(files: Files, p: Path)
    requires p in files
    ensures Total(files) == |files[p]| + Total(files - {p})
    decreases |files|
  {
    var q :| q in files && Total(files) == |files[q]| + Total(files - {q});
    if p != q {
      SmallerFiles(files, q);
      SmallerFiles(files, p);
      TotalRemove(files - {q}, p);
      TotalRemove(files - {p}, q);
      assert files - {q} - {p} == files - {p} - {q};
    }
  }

  lemma SmallerFiles(files: Files, p: Path)
    requires p in files
    ensures |files - {p}| == |files| - 1
  {
  }

  lemma TotalUpdate(files: Files, p: Path, content: seq<byte>)
    ensures Total(files[p := content]) == Total(files) - |Content(files, p)| + |content|
  {
    var files' := files[p := content];
    TotalRemove(files', p);
    if p in files {
      TotalRemove(files, p);
      assert files' - {p} == files - {p};
    } else {
      assert files' - {p} == files;
    }
  }

  /** What is on disk or will be after a flush. */
  ghost function Size(l: Log): nat {
    Total(l.files) + if l.open then |Sanitized(l.buffer)| else 0
  }

  lemma FlushedSize(c: Config, l: Log)
    ensures Size(Flushed(c, l)) == Size(l)
  {
    TotalUpdate(l.files, Current(c, l), Content(l.files, Current(c, l)) + Sanitized(l.buffer));
  }

  lemma EnsuredSize(c: Config, l: Log, today: string)
    ensures Size(Ensured(c, l, today)) == Size(l)
  {
    FlushedSize(c, l);
    var files, p := Flushed(c, l).files, PathForDate(c.base, today);
    TotalUpdate(files, p, Content(files, p) + []);
  }

  lemma BufferedSize(c: Config, l: Log, buf: seq<byte>)
    requires l.open
    ensures Size(Buffered(c, l, buf)) == Size(l) + |Sanitized(buf)|
  {
    FlushedSize(c, l);
    var l1 := if |l.buffer| + |buf| > c.capacity then Flushed(c, l) else l;
    TotalUpdate(l1.files, Current(c, l1), Content(l1.files, Current(c, l1)) + Sanitized(buf));
    SanitizedAppend(l1.buffer, buf);
  }

  lemma BeforeRotationSize(c: Config, l: Log, call: Call)
    requires call.Write?
    ensures Size(BeforeRotation(c, l, call)) == Size(l) + |Sanitized(call.buf)|
  {
    var l0 := Ensured(c, l, call.today);
    var l1 := Buffered(c, l0, call.buf);
    EnsuredSize(c, l, call.today);
    BufferedSize(c, l0, call.buf);
    FlushedSize(c, l1.(sinceFlush := l1.sinceFlush + |call.buf|));
  }

  /** The bytes of a file that a rotation writes over. */
  function Overwritten(c: Config, l: Log, call: Call): nat {
    if Rotates(c, l, call) then |Content(BeforeRotation(c, l, call).files, TargetOf(c, call))| else 0
  }

  lemma RotatedSize(c: Config, l: Log, stamp: string)
    requires TooLarge(c, l)
    ensures Size(Rotated(c, l, stamp)) == Size(l) - |Content(l.files, RotatedPath(c.base, l.date, stamp))|
  {
    var to, from := RotatedPath(c.base, l.date, stamp), Current(c, l);
    PathsDiffer(c.base, l.date, l.date, stamp, stamp);
    TotalUpdate(l.files, to, l.files[from]);
    TotalUpdate(l.files[to := l.files[from]], from, []);
  }

  lemma StepSize(c: Config, l: Log, call: Call)
    ensures Size(Step(c, l, call)) ==
            Size(l) + (if call.Write? then |Sanitized(call.buf)| else 0) - Overwritten(c, l, call)
  {
    if call.Flush? {
      FlushedSize(c, l);
    } else {
      BeforeRotationSize(c, l, call);
      BeforeRotationShape(c, l, call);
      if Rotates(c, l, call) {
        RotatedSize(c, BeforeRotation(c, l, call), call.stamp);
      }
    }
  }

  function SizeOfWrites(calls: seq<Call>): nat {
    if calls == [] then 0
    else
      var n := |calls| - 1;
      SizeOfWrites(calls[..n]) + if calls[n].Write? then |Sanitized(calls[n].buf)| else 0
  }

  predicate OverwritesNothing(c: Config, l: Log, calls: seq<Call>) {
    calls == [] ||
    var n := |calls| - 1;
    OverwritesNothing(c, l, calls[..n]) && Overwritten(c, After(c, l, calls[..n]), calls[n]) == 0
  }

  /** A run keeps every byte if and only if no rotation writes over a file with content. */
  lemma {:induction false} AllBytesKeptIff(c: Config, l: Log, calls: seq<Call>)
    ensures Size(After(c, l, calls)) <= Size(l) + SizeOfWrites(calls)
    ensures Size(After(c, l, calls)) == Size(l) + SizeOfWrites(calls) <==> OverwritesNothing(c, l, calls)
    decreases |calls|
  {
    if calls != [] {
      var n := |calls| - 1;
      AllBytesKeptIff(c, l, calls[..n]);
      StepSize(c, After(c, l, calls[..n]), calls[n]);
    }
  }

  /** A write that fills the limit at once rotates, and its bytes are in the rotated file. */
  lemma LargeWriteRotates(c: Config, l: Log, call: Call)
    requires call.Write? && call.today != "" && 0 < c.maxFileSize <= |call.buf| && FLUSH_INTERVAL_BYTES <= |call.buf|
    ensures Rotates(c, l, call)
    ensures |call.buf| <= |Content(Step(c, l, call).files, TargetOf(c, call))|
  {
    var l' := BeforeRotation(c, l, call);
    BeforeRotationAdds(c, l, call, call.today, []);
    assert l'.open && l'.date == call.today && l'.buffer == [] && Pending(l', call.today) == [];
    SanitizedIsClean(call.buf);
    assert |call.buf| <= |Content(l'.files, Current(c, l'))|;
    PathsDiffer(c.base, call.today, call.today, call.stamp, call.stamp);
  }

  lemma RotatedFileStays(c: Config, l: Log, call: Call, p: Path)
    requires call.Write? && p != PathForDate(c.base, call.today) && p != PathForDate(c.base, l.date)
    ensures Content(BeforeRotation(c, l, call).files, p) == Content(l.files, p)
  {
  }

  /** The same large write again, with the same stamp, writes over what the first rotated. */
  lemma SameStampOverwrites(c: Config, l: Log, call: Call)
    requires call.Write? && call.today != "" && 0 < c.maxFileSize <= |call.buf| && FLUSH_INTERVAL_BYTES <= |call.buf|
    ensures |call.buf| <= Overwritten(c, Step(c, l, call), call)
  {
    var l1 := Step(c, l, call);
    LargeWriteRotates(c, l, call);
    LargeWriteRotates(c, l1, call);
    PathsDiffer(c.base, call.today, call.today, call.stamp, call.stamp);
    StepDate(c, l, call);
    RotatedFileStays(c, l1, call, TargetOf(c, call));
  }

  /** Two large writes of one day with one stamp: the second one's rotation writes over the
      bytes of the first. */
  lemma SameStampLosesBytes(c: Config, call: Call)
    requires call.Write? && call.today != "" && 0 < c.maxFileSize <= |call.buf| && FLUSH_INTERVAL_BYTES <= |call.buf|
    ensures var l := Log(map[], "", false, [], 0);
            Size(After(c, l, [call, call])) + |call.buf| <= Size(l) + SizeOfWrites([call, call])
  {
    var l := Log(map[], "", false, [], 0);
    TwoWrites(c, l, call);
    SameStampOverwrites(c, l, call);
  }

  lemma TwoWrites(c: Config, l: Log, call: Call)
    requires call.Write?
    ensures Size(After(c, l, [call, call])) + Overwritten(c, Step(c, l, call), call)
         <= Size(l) + SizeOfWrites([call, call])
  {
    OneMore(c, l, [], call);
    OneMore(c, l, [call], call);
    assert [] + [call] == [call] && [call] + [call] == [call, call];
    StepSize(c, l, call);
    StepSize(c, Step(c, l, call), call);
  }

  lemma StepDate(c: Config, l: Log, call: Call)
    requires call.Write?
    ensures Step(c, l, call).date == call.today
  {
  }

  lemma OneMore(c: Config, l: Log, calls: seq<Call>, call: Call)
    ensures After(c, l, calls + [call]) == Step(c, After(c, l, calls), call)
    ensures SizeOfWrites(calls + [call]) == SizeOfWrites(calls) + if call.Write? then |Sanitized(call.buf)| else 0
  {
    assert (calls + [call])[..|calls|] == calls;
  }

  // ------------------------------------------------------------ when a write flushes and rotates

  /** What stays in the buffer: writes below its capacity, the last of them alone if it no
      longer fits behind the others. */
  lemma BufferHolds(c: Config, l: Log, buf: seq<byte>)
    requires l.open
    ensures Buffered(c, l, buf).buffer ==
            if |buf| >= c.capacity then [] else if |l.buffer| + |buf| > c.capacity then buf else l.buffer + buf
  {
  }

  /** The last write to the open file of the day counted before it. */
  predicate Fills(l: Log, call: Call) {
    call.Write? && 65536 <= (if l.open && l.date == call.today then l.sinceFlush else 0) + |call.buf|
  }

  /** A write leaves its day's file open; when 64 KiB have come together since the last flush,
      nothing stays in the buffer and the count starts again. */
  lemma WriteFlushes(c: Config, l: Log, call: Call)
    requires call.Write?
    ensures var l' := Step(c, l, call);
            && l'.open && l'.date == call.today
            && (Fills(l, call) ==> l'.buffer == [] && l'.sinceFlush == 0)
            && (!Fills(l, call) ==>
                  l'.sinceFlush == (if l.open && l.date == call.today then l.sinceFlush else 0) + |call.buf|)
  {
  }

  lemma SizeWhenFilled(c: Config, l: Log, call: Call)
    requires Fills(l, call)
    ensures var l', p := BeforeRotation(c, l, call), (call.today, c.base + ".log");
            && l'.date == call.today && p in l'.files
            && |l'.files[p]| == |Content(l.files, p)|
                 + (if l.open && l.date == call.today then |Sanitized(l.buffer)| else 0) + |Sanitized(call.buf)|
  {
    BeforeRotationAdds(c, l, call, call.today, []);
    FileIsThere(c, l, call);
  }

  lemma FileIsThere(c: Config, l: Log, call: Call)
    requires Fills(l, call)
    ensures var l' := BeforeRotation(c, l, call);
            PathForDate(c.base, call.today) in l'.files && l'.date == call.today && l'.buffer == []
  {
  }

  /** A write rotates if and only if it fills the 64 KiB and the file of its day, with what
      is in the buffer and what is written, reaches the limit. */
  lemma RotatesIff(c: Config, l: Log, call: Call)
    requires call.Write?
    ensures Rotates(c, l, call) <==>
              && Fills(l, call) && 0 < c.maxFileSize && call.today != ""
              && c.maxFileSize <= |Content(l.files, (call.today, c.base + ".log"))|
                   + (if l.open && l.date == call.today then |Sanitized(l.buffer)| else 0) + |Sanitized(call.buf)|
  {
    if Fills(l, call) {
      SizeWhenFilled(c, l, call);
    }
  }

  // ------------------------------------------------------------ how large a file grows

  /** What the open file holds, and will hold after a flush. */
  ghost predicate Bounded(c: Config, l: Log) {
    l.sinceFlush < FLUSH_INTERVAL_BYTES
    && |Content(l.files, Current(c, l))| + |Sanitized(l.buffer)| < c.maxFileSize + 2 * l.sinceFlush
  }

  lemma PlacedGrows(c: Config, l: Log, buf: seq<byte>)
    requires l.open
    ensures var l' := Buffered(c, l, buf);
            l'.open && l'.date == l.date && l'.sinceFlush == l.sinceFlush
            && |Content(l'.files, Current(c, l'))| + |Sanitized(l'.buffer)| <=
               |Content(l.files, Current(c, l))| + |Sanitized(l.buffer)| + 2 * |buf|
  {
    var l1 := if |l.buffer| + |buf| > c.capacity then Flushed(c, l) else l;
    SanitizedAppend(l1.buffer, buf);
    SanitizedIsClean(buf);
  }

  lemma BeforeRotationBounded(c: Config, l: Log, call: Call)
    requires call.Write? && (l.open ==> Bounded(c, l))
    requires !l.open || l.date != call.today ==>
               |Content(Flushed(c, l).files, PathForDate(c.base, call.today))| < c.maxFileSize
    ensures var l' := BeforeRotation(c, l, call);
            l'.open && l'.date == call.today
            && (Bounded(c, l') || (l'.sinceFlush == 0 && l'.buffer == [] && Rotates(c, l, call))
                || c.maxFileSize == 0 || call.today == "")
  {
    var l0 := Ensured(c, l, call.today);
    assert Bounded(c, l0);
    PlacedGrows(c, l0, call.buf);
  }

  /** Files are opened below the limit. */
  ghost predicate OpensBelowLimit(c: Config, l: Log, call: Call) {
    call.Write? && (!l.open || l.date != call.today) ==>
      |Content(Flushed(c, l).files, PathForDate(c.base, call.today))| < c.maxFileSize
  }

  lemma StepBounded(c: Config, l: Log, call: Call)
    requires c.maxFileSize > 0 && (call.Write? ==> call.today != "") && (l.open ==> Bounded(c, l))
    requires OpensBelowLimit(c, l, call)
    ensures Step(c, l, call).open ==> Bounded(c, Step(c, l, call))
  {
    if call.Write? {
      BeforeRotationBounded(c, l, call);
      PathsDiffer(c.base, call.today, call.today, call.stamp, call.stamp);
    }
  }

  ghost predicate OpenBelowLimit(c: Config, l: Log, calls: seq<Call>) {
    calls == [] ||
    var n := |calls| - 1;
    OpenBelowLimit(c, l, calls[..n]) && OpensBelowLimit(c, After(c, l, calls[..n]), calls[n])
  }

  /** With rotation on, over any run the open file stays below its limit plus twice the
      flush interval, as long as every file is opened below the limit. */
  lemma {:induction false} OpenFileBounded(c: Config, l: Log, calls: seq<Call>)
    requires c.maxFileSize > 0 && (l.open ==> Bounded(c, l)) && OpenBelowLimit(c, l, calls)
    requires forall call :: call in calls && call.Write? ==> call.today != ""
    ensures var l' := After(c, l, calls);
            l'.open ==> Bounded(c, l')
                        && |Content(l'.files, Current(c, l'))| < c.maxFileSize + 2 * FLUSH_INTERVAL_BYTES
    decreases |calls|
  {
    if calls != [] {
      var n := |calls| - 1;
      OpenFileBounded(c, l, calls[..n]);
      StepBounded(c, After(c, l, calls[..n]), calls[n]);
    }
  }
}
