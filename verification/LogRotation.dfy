/** A log writer that sanitises, buffers, opens a new file every day and, when the file
    has grown too large, copies it aside and truncates it. */
module LogRotation {
  import opened Bytes

  const FLUSH_INTERVAL_BYTES: nat := 65536

  // ------------------------------------------------------------ sanitising

  /** Control characters other than tab, line feed and carriage return. */
  predicate Bad(b: byte) {
    b < 0x20 && b != 0x09 && b != 0x0A && b != 0x0D
  }

  function Clean(b: byte): seq<byte> {
    if b == 0 then ['\\' as byte, '0' as byte] else if Bad(b) then ['.' as byte] else [b]
  }

  function Sanitized(buf: seq<byte>): seq<byte> {
    if buf == [] then [] else Clean(buf[0]) + Sanitized(buf[1..])
  }

  /** Byte by byte: NUL becomes a backslash and a zero digit, other control characters but
      tab, line feed and carriage return a dot. */
  lemma SanitizedByte(b: byte)
    ensures Sanitized([b]) == if b == 0 then [92, 48]
                              else if 1 <= b <= 31 && b !in {9, 10, 13} then [46]
                              else [b]
  {
    assert [b][1..] == [];
    assert Clean(b) + [] == Clean(b);
  }

  predicate HasBadBytes(buf: seq<byte>) {
    exists b :: b in buf && Bad(b)
  }

  lemma {:induction false} SanitizedAppend(a: seq<byte>, b: seq<byte>)
    ensures Sanitized(a + b) == Sanitized(a) + Sanitized(b)
    decreases |a|
  {
    if a == [] {
      assert a + b == b;
    } else {
      assert (a + b)[1..] == a[1..] + b;
      SanitizedAppend(a[1..], b);
    }
  }

  lemma SanitizedPush(buf: seq<byte>, i: nat)
    requires i < |buf|
    ensures Sanitized(buf[..i + 1]) == Sanitized(buf[..i]) + Clean(buf[i])
    ensures i == 0 ==> Sanitized(buf[..i + 1]) == Clean(buf[i])
  {
    var b := [buf[i]];
    assert buf[..i + 1] == buf[..i] + b;
    SanitizedAppend(buf[..i], b);
    assert b[1..] == [] && Clean(buf[i]) + [] == Clean(buf[i]) == [] + Clean(buf[i]);
  }

  lemma {:induction false} SanitizedIsClean(buf: seq<byte>)
    ensures !HasBadBytes(Sanitized(buf))
    ensures |buf| <= |Sanitized(buf)| <= 2 * |buf|
    decreases |buf|
  {
    if buf != [] {
      SanitizedIsClean(buf[1..]);
      assert forall b :: b in Sanitized(buf) <==> b in Clean(buf[0]) || b in Sanitized(buf[1..]);
    }
  }

  /** Clean input passes through, and only clean input does. */
  lemma {:induction false} SanitizedSameIff(buf: seq<byte>)
    ensures Sanitized(buf) == buf <==> !HasBadBytes(buf)
    decreases |buf|
  {
    if buf != [] {
      SanitizedSameIff(buf[1..]);
      SanitizedIsClean(buf);
      assert buf == [buf[0]] + buf[1..];
      if !HasBadBytes(buf) {
        assert !Bad(buf[0]);
        assert forall b :: b in buf[1..] ==> b in buf;
      }
    }
  }

  // ------------------------------------------------------------ the files of a day

  /** A day's directory and a file name in it. */
  type Path = (string, string)

  type Files = map<Path, seq<byte>>

  function PathForDate(base: string, date: string): Path {
    (date, base + ".log")
  }

  function RotatedPath(base: string, date: string, stamp: string): Path {
    (date, base + "-" + stamp + ".log")
  }

  lemma PathsDiffer(base: string, d: string, e: string, s: string, t: string)
    ensures PathForDate(base, d) != RotatedPath(base, e, s)
    ensures RotatedPath(base, d, s) == RotatedPath(base, e, t) <==> d == e && s == t
    ensures PathForDate(base, d) == PathForDate(base, e) <==> d == e
  {
    var u, v := base + "-" + s + ".log", base + "-" + t + ".log";
    assert |base + ".log"| == |base| + 4 < |u|;
    if u == v {
      assert |s| == |t|;
      assert u[|base| + 1..|base| + 1 + |s|] == s;
      assert v[|base| + 1..|base| + 1 + |t|] == t;
    }
  }

  /** A file that does not exist reads as empty. */
  function Content(files: Files, p: Path): seq<byte> {
    if p in files then files[p] else []
  }

  // ------------------------------------------------------------ the writer, step by step

  datatype Config = Config(base: string, maxFileSize: nat, capacity: nat)

  datatype Log = Log(files: Files, date: string, open: bool, buffer: seq<byte>, sinceFlush: nat)

  /** One call: a write with the date and the time stamp its clock reads give, or a flush. */
  datatype Call = Write(today: string, stamp: string, buf: seq<byte>) | Flush

  function Current(c: Config, l: Log): Path {
    PathForDate(c.base, l.date)
  }

  function Appended(files: Files, p: Path, more: seq<byte>): Files {
    files[p := Content(files, p) + more]
  }

  lemma AppendedTwice(files: Files, p: Path, a: seq<byte>, b: seq<byte>)
    ensures Appended(Appended(files, p, a), p, b) == Appended(files, p, a + b)
  {
    assert Content(files, p) + a + b == Content(files, p) + (a + b);
  }

  function Flushed(c: Config, l: Log): Log {
    if l.open then l.(files := Appended(l.files, Current(c, l), Sanitized(l.buffer)), buffer := []) else l
  }

  function Ensured(c: Config, l: Log, today: string): Log {
    if l.open && l.date == today then l
    else Log(Appended(Flushed(c, l).files, PathForDate(c.base, today), []), today, true, [], 0)
  }

  function Placed(c: Config, l: Log, buf: seq<byte>): Log {
    if |buf| >= c.capacity then l.(files := Appended(l.files, Current(c, l), Sanitized(buf)))
    else l.(buffer := l.buffer + buf)
  }

  /** The standard buffered writer: makes room first, and bypasses the buffer for anything
      that would fill it. */
  function Buffered(c: Config, l: Log, buf: seq<byte>): Log {
    Placed(c, if |l.buffer| + |buf| > c.capacity then Flushed(c, l) else l, buf)
  }

  predicate TooLarge(c: Config, l: Log) {
    c.maxFileSize > 0 && l.date != "" && Current(c, l) in l.files && |l.files[Current(c, l)]| >= c.maxFileSize
  }

  function Rotated(c: Config, l: Log, stamp: string): Log {
    if TooLarge(c, l) then
      l.(files := l.files[RotatedPath(c.base, l.date, stamp) := l.files[Current(c, l)]][Current(c, l) := []],
         sinceFlush := 0)
    else l
  }

  /** The state in which a write decides about rotation, if it gets that far. */
  function BeforeRotation(c: Config, l: Log, call: Call): Log
    requires call.Write?
  {
    var l1 := Buffered(c, Ensured(c, l, call.today), call.buf);
    var l2 := l1.(sinceFlush := l1.sinceFlush + |call.buf|);
    if l2.sinceFlush >= FLUSH_INTERVAL_BYTES then Flushed(c, l2).(sinceFlush := 0) else l2
  }

  predicate Rotates(c: Config, l: Log, call: Call) {
    call.Write? && Ensured(c, l, call.today).sinceFlush + |call.buf| >= FLUSH_INTERVAL_BYTES
    && TooLarge(c, BeforeRotation(c, l, call))
  }

  function Step(c: Config, l: Log, call: Call): Log {
    match call
    case Flush => Flushed(c, l)
    case Write(_, stamp, _) =>
      var l' := BeforeRotation(c, l, call);
      if Rotates(c, l, call) then Rotated(c, l', stamp) else l'
  }

  // ------------------------------------------------------------ the same, file by file

  /** A flush appends the sanitised buffer to the file of the day and empties it. */
  lemma FlushAppends(c: Config, l: Log)
    ensures var p := (l.date, c.base + ".log");
            Flushed(c, l) ==
            if l.open then l.(files := l.files[p := Content(l.files, p) + Sanitized(l.buffer)], buffer := []) else l
  {
  }

  /** On another day the open file is flushed, and that day's file is opened where it ends. */
  lemma DayBegins(c: Config, l: Log, today: string)
    ensures var l', p := Ensured(c, l, today), (today, c.base + ".log");
            && l'.open && l'.date == today
            && if l.open && l.date == today then l' == l
               else l'.buffer == [] && l'.sinceFlush == 0
                    && l'.files == Flushed(c, l).files[p := Content(Flushed(c, l).files, p)]
  {
    var files, p := Flushed(c, l).files, (today, c.base + ".log");
    assert Content(files, p) + [] == Content(files, p);
  }

  /** A file that has reached the limit goes to the stamped name and starts again. */
  lemma FullFileMoves(c: Config, l: Log, stamp: string)
    ensures var p, q := (l.date, c.base + ".log"), (l.date, c.base + "-" + stamp + ".log");
            Rotated(c, l, stamp) ==
            if 0 < c.maxFileSize && l.date != "" && p in l.files && c.maxFileSize <= |l.files[p]|
            then l.(files := l.files[q := l.files[p]][p := []], sinceFlush := 0)
            else l
  {
  }

  // ------------------------------------------------------------ the writer

  class DailyRotatingFileWriter {
    const config: Config
    var files: Files
    var currentDate: string
    var open: bool
    var buffer: seq<byte>
    var bytesSinceFlush: nat

    ghost function State(): Log
      reads this
    {
      Log(files, currentDate, open, buffer, bytesSinceFlush)
    }

    constructor (config: Config, files: Files)
      ensures this.config == config && State() == Log(files, "", false, [], 0)
    {
      this.config, this.files := config, files;
      currentDate, open, buffer, bytesSinceFlush := "", false, [], 0;
    }

    method WriteAll(p: Path, more: seq<byte>)
      modifies this`files
      ensures files == Appended(old(files), p, more)
    {
      files := Appended(files, p, more);
    }

    /** Clean input in one piece, anything else byte by byte. */
    method SanitizeAndWrite(p: Path, buf: seq<byte>)
      modifies this`files
      ensures files == Appended(old(files), p, Sanitized(buf))
    {
      SanitizedSameIff(buf);
      if !HasBadBytes(buf) {
        WriteAll(p, buf);
        return;
      }
      for i := 0 to |buf|
        invariant files == if i == 0 then old(files) else Appended(old(files), p, Sanitized(buf[..i]))
      {
        SanitizedPush(buf, i);
        AppendedTwice(old(files), p, Sanitized(buf[..i]), Clean(buf[i]));
        WriteAll(p, Clean(buf[i]));
      }
      assert buf[..|buf|] == buf;
    }

    method Flush()
      modifies this
      ensures State() == Flushed(config, old(State())) == Step(config, old(State()), Call.Flush)
    {
      if open {
        SanitizeAndWrite(PathForDate(config.base, currentDate), buffer);
        buffer := [];
      }
    }

    method EnsureFileForToday(today: string)
      modifies this
      ensures State() == Ensured(config, old(State()), today)
    {
      var needDateCheck :=
        !open || currentDate == "" || currentDate != today || bytesSinceFlush >= FLUSH_INTERVAL_BYTES;
      if !needDateCheck {
        return;
      }
      if currentDate == today && open {
        return;
      }
      Flush();
      WriteAll(PathForDate(config.base, today), []);
      currentDate, bytesSinceFlush, open, buffer := today, 0, true, [];
    }

    method WriteBuffered(buf: seq<byte>)
      requires open
      modifies this
      ensures State() == Buffered(config, old(State()), buf)
    {
      if |buffer| + |buf| > config.capacity {
        Flush();
      }
      if |buf| >= config.capacity {
        SanitizeAndWrite(PathForDate(config.base, currentDate), buf);
      } else {
        buffer := buffer + buf;
      }
    }

    method RotateBySizeIfNeeded(stamp: string)
      modifies this
      ensures State() == Rotated(config, old(State()), stamp)
    {
      if config.maxFileSize == 0 || currentDate == "" {
        return;
      }
      var path := PathForDate(config.base, currentDate);
      if path !in files || |files[path]| < config.maxFileSize {
        return;
      }
      files := files[RotatedPath(config.base, currentDate, stamp) := files[path]];
      files := files[path := []];
      bytesSinceFlush := 0;
    }

    method Write(today: string, stamp: string, buf: seq<byte>) returns (n: nat)
      modifies this
      ensures n == |buf| && State() == Step(config, old(State()), Call.Write(today, stamp, buf))
    {
      EnsureFileForToday(today);
      WriteBuffered(buf);
      n := |buf|;
      bytesSinceFlush := bytesSinceFlush + n;
      if bytesSinceFlush >= FLUSH_INTERVAL_BYTES {
        Flush();
        bytesSinceFlush := 0;
        RotateBySizeIfNeeded(stamp);
      }
    }
  }
}
