/** The segmented write-ahead log (`internal/wal/wal.go`) over a directory of files. */
module Wal {
  import opened Words
  import opened WalRecord
  import opened WalLog

  const DEFAULT_SEGMENT_SIZE := 0x100_0000
  const DEFAULT_MAX_SIZE := 0x800_0000

  // ----- the directory -----

  /** `listSegments`: the segment numbers in increasing order. */
  function Sorted(s: set<nat>): (r: seq<nat>)
    ensures |r| == |s|
    decreases |s|
  {
    if s == {} then []
    else
      var m := Greatest(s);
      Sorted(s - {m}) + [m]
  }

  predicate IsGreatest(m: nat, s: set<nat>) {
    m in s && forall k :: k in s ==> k <= m
  }

  lemma {:induction false} GreatestExists(s: set<nat>)
    requires s != {}
    ensures exists m :: IsGreatest(m, s)
  {
    var x :| x in s;
    if s == {x} {
      assert IsGreatest(x, s);
    } else {
      GreatestExists(s - {x});
      var m :| IsGreatest(m, s - {x});
      var g := if m > x then m else x;
      forall k | k in s
        ensures k <= g
      {
        assert k == x || k in s - {x};
      }
      assert IsGreatest(g, s);
    }
  }

  function Greatest(s: set<nat>): (m: nat)
    requires s != {}
    ensures IsGreatest(m, s)
  {
    GreatestExists(s);
    var m :| IsGreatest(m, s);
    m
  }

  /** Contiguous segment numbers, the greatest of them active. */
  ghost predicate Contiguous(files: Files, first: nat, active: nat) {
    first <= active && forall k :: k in files <==> first <= k <= active
  }

  lemma {:induction false} SortedRange(s: set<nat>, first: nat, n: nat)
    requires forall k :: k in s <==> first <= k < first + n
    ensures |Sorted(s)| == n && forall i :: 0 <= i < n ==> Sorted(s)[i] == first + i
    decreases n
  {
    if n == 0 {
      assert s == {};
    } else {
      assert first + n - 1 in s;
      var m := Greatest(s);
      assert m == first + n - 1;
      SortedRange(s - {m}, first, n - 1);
    }
  }

  lemma SortedFiles(files: Files, lo: nat, hi: nat)
    requires Contiguous(files, lo, hi)
    ensures |Sorted(files.Keys)| == hi - lo + 1
    ensures forall i :: 0 <= i <= hi - lo ==> Sorted(files.Keys)[i] == lo + i
  {
    SortedRange(files.Keys, lo, hi - lo + 1);
  }

  // ----- operations on the files -----

  function Content(files: Files, k: nat): Bytes {
    if k in files then files[k] else []
  }

  /** One record appended, to the next segment if the active one would grow too large. */
  function Appended(files: Files, active: nat, size: int, rec: Bytes): (r: (Files, nat)) {
    if |Content(files, active)| > 0 && |Content(files, active)| + |rec| > size then
      (files[active + 1 := Content(files, active + 1) + rec], active + 1)
    else (files[active := Content(files, active) + rec], active)
  }

  /** `os.Truncate`: cut, or filled up with zeros. */
  function Cut(b: Bytes, n: nat): Bytes {
    if n <= |b| then b[..n] else b + seq(n - |b|, i => 0)
  }

  function WithoutLater(files: Files, seg: nat): Files {
    map k | k in files && k <= seg :: files[k]
  }

  /** The log cut back to a position. */
  function Truncated(files: Files, cp: Checkpoint): Files
    requires cp.segment in files
  {
    WithoutLater(files, cp.segment)[cp.segment := Cut(files[cp.segment], cp.offset)]
  }

  /** The bytes in segments `lo` to `hi - 1`. */
  function SizeOf(files: Files, lo: nat, hi: nat): nat
    decreases hi - lo
  {
    if lo >= hi then 0 else |Content(files, lo)| + SizeOf(files, lo + 1, hi)
  }

  /** The bytes not acknowledged by `cp` in segments `lo` to `hi - 1`. */
  function UnackedOf(files: Files, cp: Checkpoint, lo: nat, hi: nat): nat
    decreases hi - lo
  {
    if lo >= hi then 0
    else
      var n := |Content(files, lo)|;
      (if lo > cp.segment then n else if lo == cp.segment && n > cp.offset then n - cp.offset else 0)
        + UnackedOf(files, cp, lo + 1, hi)
  }

  predicate TooLarge(files: Files, lo: nat, active: nat, max: int) {
    SizeOf(files, lo, active + 1) > max
  }

  /** The first segment that retention keeps: the log from there on fits, or is only the active one. */
  function Keep(files: Files, lo: nat, active: nat, max: int): (f: nat)
    requires lo <= active
    ensures lo <= f <= active
    ensures f == active || SizeOf(files, f, active + 1) <= max
    ensures forall g :: lo <= g < f ==> TooLarge(files, g, active, max)
    decreases active - lo
  {
    if SizeOf(files, lo, active + 1) <= max || lo == active then lo
    else Keep(files, lo + 1, active, max)
  }

  /** The files after retention. */
  function Retained(files: Files, f: nat): Files {
    map k | k in files && k >= f :: files[k]
  }

  /** The checkpoint after retention: past the deleted segments. */
  function Moved(cp: Checkpoint, lo: nat, f: nat): Checkpoint {
    if lo <= cp.segment < f then Checkpoint(f, 0) else cp
  }

  class Dir {
    var files: Files
    var checkpoint: Option<Checkpoint>

    constructor ()
      ensures files == map[] && checkpoint == None
    {
      files, checkpoint := map[], None;
    }

    /** The stored checkpoint, or the zero one when none was stored yet. */
    method LoadCheckpoint() returns (cp: Checkpoint)
      ensures cp == if checkpoint.Some? then checkpoint.value else Checkpoint(0, 0)
    {
      return if checkpoint.Some? then checkpoint.value else Checkpoint(0, 0);
    }

    /** Replaced as a whole (temporary file and rename), or left alone on failure. */
    method SaveCheckpoint(cp: Checkpoint, works: bool)
      modifies this`checkpoint
      ensures checkpoint == if works then Some(cp) else old(checkpoint)
    {
      if works {
        checkpoint := Some(cp);
      }
    }
  }

  class Wal {
    const dir: Dir
    const crc: Checksum
    const segmentSize: int
    const maxSize: int
    var segment: nat
    var offset: nat
    var dirty: bool
    var closed: bool
    ghost var first: nat

    /** The active segment exists, is the last of a contiguous range, and `offset` is its size. */
    ghost predicate Valid()
      reads this, dir
    {
      Contiguous(dir.files, first, segment) && offset == |dir.files[segment]|
    }

    /** Creates or resumes a log: the last segment is active, damaged or not. Unless segments
        are missing in between, the log is then in order. */
    constructor Open(dir: Dir, crc: Checksum, segmentSize: int, maxSize: int)
      modifies dir`files
      ensures old(dir.files) == map[] || (exists lo: nat, hi: nat :: Contiguous(old(dir.files), lo, hi)) ==> Valid()
      ensures segment in dir.files && offset == |dir.files[segment]|
      ensures if old(dir.files) == map[] then segment == 0 else IsGreatest(segment, old(dir.files).Keys)
      ensures dir.files == if old(dir.files) == map[] then map[0 := []] else old(dir.files)
      ensures this.dir == dir && this.crc == crc && !dirty && !closed
      ensures this.segmentSize == (if segmentSize <= 0 then DEFAULT_SEGMENT_SIZE else segmentSize)
      ensures this.maxSize == (if maxSize <= 0 then DEFAULT_MAX_SIZE else maxSize)
    {
      this.dir, this.crc := dir, crc;
      this.segmentSize := if segmentSize <= 0 then DEFAULT_SEGMENT_SIZE else segmentSize;
      this.maxSize := if maxSize <= 0 then DEFAULT_MAX_SIZE else maxSize;
      dirty, closed := false, false;
      segment, offset, first := 0, 0, 0;
      new;
      var seg := LastSegment();
      if lo: nat, hi: nat :| Contiguous(dir.files, lo, hi) {
        assert hi in dir.files.Keys && dir.files != map[];
        first := lo;
      }
      OpenSegment(seg);
    }

    method LastSegment() returns (seg: nat)
      ensures if dir.files == map[] then seg == 0 else IsGreatest(seg, dir.files.Keys)
    {
      hide Greatest;
      var segments := Sorted(dir.files.Keys);
      seg := 0;
      if |segments| > 0 {
        seg := segments[|segments| - 1];
      }
    }

    method OpenSegment(seg: nat)
      modifies this`segment, this`offset, dir`files
      ensures segment == seg && offset == |Content(old(dir.files), seg)|
      ensures dir.files == if seg in old(dir.files) then old(dir.files) else old(dir.files)[seg := []]
    {
      if seg !in dir.files {
        dir.files := dir.files[seg := []];
      }
      segment, offset := seg, |dir.files[seg]|;
    }

    /** Writes one record, starting a new segment when the active one would grow too large. */
    method Append(flags: Byte, payload: Bytes) returns (ok: bool)
      requires Valid()
      modifies this, dir`files
      ensures Valid() && ok == !old(closed) && closed == old(closed) && first == old(first)
      ensures var rec := RecordBytes(crc, Record(flags, payload));
        ok ==> (dir.files, segment) == Appended(old(dir.files), old(segment), segmentSize, rec)
      ensures !ok ==> dir.files == old(dir.files) && segment == old(segment)
    {
      var rec := EncodeRecord(crc, Record(flags, payload));
      if closed {
        return false;
      }
      if offset > 0 && offset + rec.Length > segmentSize {
        dirty := false;
        OpenSegment(segment + 1);
      }
      dir.files := dir.files[segment := dir.files[segment] + rec[..]];
      offset := offset + rec.Length;
      ghost var files := old(dir.files)[segment := Content(old(dir.files), segment) + rec[..]];
      assert segment == old(segment) ==> dir.files == files;
      assert segment != old(segment) ==> dir.files == files;
      dirty := true;
      return true;
    }

    /** Total bytes on disk and bytes not yet acknowledged by `cp`. */
    method Stats(cp: Checkpoint) returns (total: nat, unacked: nat)
      requires Valid()
      ensures total == SizeOf(dir.files, first, segment + 1)
      ensures unacked == UnackedOf(dir.files, cp, first, segment + 1)
    {
      hide Sorted, SizeOf, UnackedOf;
      var segments := Sorted(dir.files.Keys);
      SortedFiles(dir.files, first, segment);
      NoSegments(dir.files, cp, segment + 1);
      total, unacked := 0, 0;
      for i := 0 to |segments|
        invariant total + SizeOf(dir.files, first + i, segment + 1) == SizeOf(dir.files, first, segment + 1)
        invariant unacked + UnackedOf(dir.files, cp, first + i, segment + 1)
          == UnackedOf(dir.files, cp, first, segment + 1)
      {
        var s, size := segments[i], |dir.files[segments[i]]|;
        StatsStep(dir.files, cp, s, segment + 1);
        total := total + size;
        if s > cp.segment {
          unacked := unacked + size;
        } else if s == cp.segment && size > cp.offset {
          unacked := unacked + size - cp.offset;
        }
      }
    }

    /** Cuts the log back to `cp`, dropping the rest of its segment and all later ones. Without
        that segment it fails, having dropped the later ones. */
    method Truncate(cp: Checkpoint) returns (ok: bool)
      requires Valid()
      modifies this, dir`files
      ensures ok == (cp.segment in old(dir.files))
      ensures ok ==> Valid() && first == old(first) && segment == cp.segment
      ensures ok ==> dir.files == Truncated(old(dir.files), cp)
      ensures !ok ==> dir.files == WithoutLater(old(dir.files), cp.segment)
      ensures !ok ==> segment == old(segment) && first == old(first)
      ensures closed == old(closed)
    {
      RemoveLater(cp.segment);
      if cp.segment !in dir.files {
        return false;
      }
      dir.files := dir.files[cp.segment := Cut(dir.files[cp.segment], cp.offset)];
      if segment >= cp.segment {
        OpenSegment(cp.segment);
      }
      return true;
    }

    method RemoveLater(seg: nat)
      requires Valid()
      modifies dir`files
      ensures dir.files == WithoutLater(old(dir.files), seg)
    {
      hide Sorted;
      var segments := Sorted(dir.files.Keys);
      SortedFiles(dir.files, first, segment);
      var kept := dir.files;
      for i := 0 to |segments|
        modifies {}
        invariant forall k :: k in kept <==> k in dir.files && (k <= seg || k >= first + i)
        invariant forall k :: k in kept ==> kept[k] == dir.files[k]
      {
        if segments[i] > seg {
          kept := kept - {segments[i]};
        }
      }
      dir.files := kept;
    }

    /** Deletes oldest segments while the total exceeds the limit, never the active one, and
        moves the checkpoint past what was deleted. */
    method EnforceMaxSize(cp: Checkpoint) returns (cp': Checkpoint)
      requires Valid()
      modifies dir`files, this`first
      ensures Valid()
      ensures first == Keep(old(dir.files), old(first), segment, maxSize)
      ensures dir.files == Retained(old(dir.files), first)
      ensures cp' == Moved(cp, old(first), first)
    {
      hide Sorted, Keep, SizeOf;
      var segments := Sorted(dir.files.Keys);
      SortedFiles(dir.files, first, segment);
      var total, _ := Stats(cp);
      RetainedAll(dir.files, first, segment);
      ghost var f;
      dir.files, cp', f := DropOldest(dir.files, segments, first, segment, maxSize, cp, total);
      first := f;
    }
  }

  method DropOldest(files: Files, segments: seq<nat>, ghost first: nat, active: nat, maxSize: int,
                    cp: Checkpoint, size: nat)
      returns (kept: Files, cp': Checkpoint, ghost f: nat)
    requires Contiguous(files, first, active) && |segments| == active - first + 1
    requires forall i :: 0 <= i < |segments| ==> segments[i] == first + i
    requires size == SizeOf(files, first, active + 1)
    ensures f == Keep(files, first, active, maxSize)
    ensures kept == Retained(files, f) && cp' == Moved(cp, first, f)
  {
    hide Keep, SizeOf, Retained;
    RetainedAll(files, first, active);
    var total := size;
    kept, cp' := files, cp;
    var i := 0;
    while true
      invariant 0 <= i < |segments|
      invariant total == SizeOf(files, first + i, active + 1)
      invariant kept == Retained(files, first + i)
      invariant cp' == Moved(cp, first, first + i)
      invariant Keep(files, first, active, maxSize) == Keep(files, first + i, active, maxSize)
      decreases |segments| - i
    {
      var s := segments[i];
      KeepStep(files, s, active, maxSize);
      if total <= maxSize || s == active {
        break;
      }
      total := total - |files[s]|;
      RetainedStep(files, s);
      kept := kept - {s};
      if s == cp'.segment {
        cp' := Checkpoint(s + 1, 0);
      }
      i := i + 1;
    }
    f := first + i;
  }

  lemma StatsStep(files: Files, cp: Checkpoint, s: nat, hi: nat)
    requires s < hi && s in files
    ensures SizeOf(files, s, hi) == |files[s]| + SizeOf(files, s + 1, hi)
    ensures UnackedOf(files, cp, s, hi) == UnackedOf(files, cp, s + 1, hi) +
      (if s > cp.segment then |files[s]|
       else if s == cp.segment && |files[s]| > cp.offset then |files[s]| - cp.offset else 0)
  {
  }

  lemma NoSegments(files: Files, cp: Checkpoint, hi: nat)
    ensures SizeOf(files, hi, hi) == 0 && UnackedOf(files, cp, hi, hi) == 0
  {
  }

  lemma KeepStep(files: Files, s: nat, active: nat, max: int)
    requires s <= active && s in files
    ensures SizeOf(files, s, active + 1) == |files[s]| + SizeOf(files, s + 1, active + 1)
    ensures SizeOf(files, s, active + 1) <= max || s == active ==> Keep(files, s, active, max) == s
    ensures !(SizeOf(files, s, active + 1) <= max || s == active) ==>
      Keep(files, s, active, max) == Keep(files, s + 1, active, max)
  {
  }

  lemma RetainedAll(files: Files, first: nat, active: nat)
    requires Contiguous(files, first, active)
    ensures Retained(files, first) == files
  {
  }

  lemma RetainedStep(files: Files, s: nat)
    ensures Retained(files, s) - {s} == Retained(files, s + 1)
  {
  }
}
