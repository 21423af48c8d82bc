/**
 * plugin/appstore/supervisor.go: the per-app audit log with rotated generations.
 * Generation 0 is supervisor.log, generation i is supervisor.log.i. File
 * operations succeed and one writer holds the log.
 */
module AuditLog {

  const MAX_AUDIT_LOG_SIZE: int := 10 * 1024 * 1024
  const DEFAULT_AUDIT_LOG_BACKUPS: int := 3

  type Files = map<nat, seq<string>>

  function Content(files: Files, i: nat): seq<string>
  {
    if i in files then files[i] else []
  }

  /** Bytes in a run of lines. */
  function Size(lines: seq<string>): nat
  {
    if lines == [] then 0 else Size(lines[..|lines| - 1]) + |lines[|lines| - 1]|
  }

  /** The lines of generations hi down to lo, oldest first. */
  function Read(files: Files, hi: int, lo: nat): seq<string>
    decreases hi - lo + 1
  {
    if hi < lo then [] else Content(files, hi) + Read(files, hi - 1, lo)
  }

  /** Every generation moved down one slot; the one in slot `keep` is discarded. */
  function Shifted(files: Files, keep: nat): Files
  {
    var moved := set i | i in files && i < keep :: i + 1;
    (map i | i in files && i > keep :: files[i]) + (map i | i in moved :: files[i - 1])
  }

  /** A file that may be missing. */
  datatype Slot = Missing | File(lines: seq<string>)

  function SlotAt(files: Files, i: nat): Slot
  {
    if i in files then File(files[i]) else Missing
  }

  /** Slot j once the loop has moved every generation above i. */
  function MidRotation(files: Files, keep: nat, i: int, j: nat): Slot
    requires i >= -1
  {
    if j <= i || j > keep then SlotAt(files, j)
    else if j == i + 1 then Missing
    else SlotAt(files, j - 1)
  }

  /** Moving generation i down, if it is there, is one step of the rotation. */
  lemma MidRotationStep(files: Files, keep: nat, i: nat, cur: Files, next: Files)
    requires i < keep
    requires forall j :: SlotAt(cur, j) == MidRotation(files, keep, i, j)
    requires next == if i in cur then (cur - {i})[i + 1 := cur[i]] else cur
    ensures forall j :: SlotAt(next, j) == MidRotation(files, keep, i - 1, j)
  {
    assert SlotAt(cur, i) == MidRotation(files, keep, i, i);
    assert SlotAt(cur, i + 1) == MidRotation(files, keep, i, i + 1);
    forall j: nat ensures SlotAt(next, j) == MidRotation(files, keep, i - 1, j) {
      assert SlotAt(cur, j) == MidRotation(files, keep, i, j);
    }
  }

  lemma ShiftedSlots(files: Files, keep: nat, files': Files)
    requires forall j :: SlotAt(files', j) == MidRotation(files, keep, -1, j)
    ensures files' == Shifted(files, keep)
  {
    forall j: nat ensures SlotAt(Shifted(files, keep), j) == SlotAt(files', j) {
      if 1 <= j <= keep && j - 1 in files {
        assert j in (set i | i in files && i < keep :: i + 1);
      }
    }
    forall j: nat ensures j in files' <==> j in Shifted(files, keep) {
      assert SlotAt(Shifted(files, keep), j) == SlotAt(files', j);
    }
    forall j | j in files' ensures files'[j] == Shifted(files, keep)[j] {
      assert SlotAt(Shifted(files, keep), j) == SlotAt(files', j);
    }
  }

  // ---- what a rotation does to the kept lines ----

  lemma {:induction false} ReadSplit(files: Files, hi: int, mid: nat, lo: nat)
    requires lo <= mid <= hi + 1
    ensures Read(files, hi, lo) == Read(files, hi, mid) + Read(files, mid - 1, lo)
    decreases hi - mid + 1
  {
    if mid <= hi {
      ReadSplit(files, hi - 1, mid, lo);
    }
  }

  lemma ShiftedContent(files: Files, keep: nat, i: nat)
    requires 1 <= i <= keep
    ensures Content(Shifted(files, keep), i) == Content(files, i - 1)
  {
    if i - 1 in files {
      assert i in (set j | j in files && j < keep :: j + 1);
    }
  }

  lemma {:induction false} ReadShifted(files: Files, keep: nat, hi: int, lo: nat)
    requires hi <= keep && 1 <= lo
    ensures Read(Shifted(files, keep), hi, lo) == Read(files, hi - 1, lo - 1)
    decreases hi - lo + 1
  {
    if lo <= hi {
      ShiftedContent(files, keep, hi);
      ReadShifted(files, keep, hi - 1, lo);
    }
  }

  /** A rotation loses exactly the oldest kept generation, and empties the active log. */
  lemma RotationLosesOldest(files: Files, keep: nat)
    requires keep >= 1
    ensures Read(files, keep, 0) == Content(files, keep) + Read(Shifted(files, keep), keep, 0)
    ensures 0 !in Shifted(files, keep)
  {
    ReadShifted(files, keep, keep, 1);
    ReadSplit(Shifted(files, keep), keep, 1, 0);
    assert Read(Shifted(files, keep), 0, 0) == [] + Read(Shifted(files, keep), -1, 0);
  }

  lemma {:induction false} ReadAbove(files: Files, lines: seq<string>, hi: int, lo: nat)
    requires lo >= 1
    ensures Read(files[0 := lines], hi, lo) == Read(files, hi, lo)
    decreases hi - lo + 1
  {
    if lo <= hi {
      ReadAbove(files, lines, hi - 1, lo);
    }
  }

  /** Appending to the active log appends to what is kept. */
  lemma AppendReads(files: Files, keep: nat, line: string)
    ensures Read(files[0 := Content(files, 0) + [line]], keep, 0) == Read(files, keep, 0) + [line]
  {
    var files' := files[0 := Content(files, 0) + [line]];
    ReadSplit(files, keep, 1, 0);
    ReadSplit(files', keep, 1, 0);
    ReadAbove(files, Content(files, 0) + [line], keep, 1);
    assert Read(files', 0, 0) == Content(files', 0) + Read(files', -1, 0);
    assert Read(files, 0, 0) == Content(files, 0) + Read(files, -1, 0);
  }

  // ---- sizes ----

  lemma {:induction false} SizeConcat(a: seq<string>, b: seq<string>)
    ensures Size(a + b) == Size(a) + Size(b)
  {
    if b == [] {
      assert a + b == a;
    } else {
      assert (a + b)[..|a + b| - 1] == a + b[..|b| - 1];
      SizeConcat(a, b[..|b| - 1]);
    }
  }

  /** Generations each under `bound` bytes hold together under count * bound. */
  lemma {:induction false} TotalUnder(files: Files, hi: nat, bound: int)
    requires forall i :: 0 <= i <= hi ==> Size(Content(files, i)) < bound
    ensures Size(Read(files, hi, 0)) < (hi + 1) * bound
  {
    SizeConcat(Content(files, hi), Read(files, hi - 1, 0));
    if hi > 0 {
      TotalUnder(files, hi - 1, bound);
      assert (hi + 1) * bound == hi * bound + bound;
    } else {
      assert Read(files, -1, 0) == [];
    }
  }

  /** Generations each of at least `floor` bytes hold together at least count * floor. */
  lemma {:induction false} TotalAtLeast(files: Files, hi: nat, floor: int)
    requires forall i :: 1 <= i <= hi ==> Size(Content(files, i)) >= floor
    ensures Size(Read(files, hi, 1)) >= hi * floor
  {
    if hi > 0 {
      SizeConcat(Content(files, hi), Read(files, hi - 1, 1));
      TotalAtLeast(files, hi - 1, floor);
      assert hi * floor == (hi - 1) * floor + floor;
    }
  }

  // ---- the run invariant ----

  /**
   * Where a run of writes stands: every line ever in the log, how many of the
   * oldest are gone, how many were there before the run, the rotations so far,
   * and the longest line.
   */
  datatype Run = Run(all: seq<string>, dropped: nat, inherited: nat, rotations: nat, longest: nat)

  /** What is kept is a suffix of everything. */
  ghost predicate KeptIsSuffix(files: Files, keep: nat, r: Run)
  {
    r.dropped <= |r.all| && Read(files, keep, 0) == r.all[r.dropped..]
  }

  /** No file outgrows the limit by more than a line. */
  ghost predicate FilesBounded(files: Files, keep: nat, bound: int)
  {
    forall i :: 0 <= i <= keep ==> Size(Content(files, i)) < bound
  }

  /** Every generation rotated out in this run was full. */
  ghost predicate RotatedFull(files: Files, keep: nat, max: int, rotations: nat)
  {
    forall i :: 1 <= i <= keep && i <= rotations ==> Size(Content(files, i)) >= max
  }

  /** Until the slots have been cycled, only lines from before the run are gone. */
  ghost predicate OnlyInheritedGone(files: Files, keep: nat, r: Run)
  {
    r.rotations <= keep ==> r.dropped + |Read(files, keep, r.rotations + 1)| <= r.inherited
  }

  ghost predicate Invariant(files: Files, keep: nat, max: int, r: Run)
  {
    && KeptIsSuffix(files, keep, r)
    && FilesBounded(files, keep, max + r.longest)
    && RotatedFull(files, keep, max, r.rotations)
    && OnlyInheritedGone(files, keep, r)
  }

  lemma RotateKeeps(files: Files, keep: nat, max: int, r: Run)
    requires keep >= 1 && max > 0 && Invariant(files, keep, max, r)
    requires Size(Content(files, 0)) >= max
    ensures Invariant(Shifted(files, keep), keep, max,
                      r.(dropped := r.dropped + |Content(files, keep)|, rotations := r.rotations + 1))
  {
    var files' := Shifted(files, keep);
    RotationLosesOldest(files, keep);
    assert r.all[r.dropped..][|Content(files, keep)|..] == Read(files', keep, 0);
    forall i | 0 <= i <= keep ensures Size(Content(files', i)) < max + r.longest {
      if i > 0 {
        ShiftedContent(files, keep, i);
      }
    }
    forall i | 1 <= i <= keep && i <= r.rotations + 1 ensures Size(Content(files', i)) >= max {
      ShiftedContent(files, keep, i);
    }
    if r.rotations + 1 <= keep {
      ReadShifted(files, keep, keep, r.rotations + 2);
      assert Read(files, keep, r.rotations + 1) == Content(files, keep) + Read(files, keep - 1, r.rotations + 1);
    }
  }

  function Longer(a: nat, b: nat): nat { if a > b then a else b }

  lemma AppendKeepsSizes(files: Files, keep: nat, max: int, r: Run, line: string)
    requires FilesBounded(files, keep, max + r.longest) && RotatedFull(files, keep, max, r.rotations)
    requires Size(Content(files, 0)) < max
    ensures FilesBounded(files[0 := Content(files, 0) + [line]], keep, max + Longer(|line|, r.longest))
    ensures RotatedFull(files[0 := Content(files, 0) + [line]], keep, max, r.rotations)
  {
    var files' := files[0 := Content(files, 0) + [line]];
    assert Content(files', 0)[..|Content(files', 0)| - 1] == Content(files, 0);
    forall i: nat | 1 <= i ensures Content(files', i) == Content(files, i) {
    }
  }

  lemma AppendKeeps(files: Files, keep: nat, max: int, r: Run, line: string)
    requires Invariant(files, keep, max, r)
    requires Size(Content(files, 0)) < max
    ensures Invariant(files[0 := Content(files, 0) + [line]], keep, max,
                      r.(all := r.all + [line], longest := Longer(|line|, r.longest)))
  {
    AppendKeepsSizes(files, keep, max, r, line);
    AppendReads(files, keep, line);
    assert (r.all + [line])[r.dropped..] == r.all[r.dropped..] + [line];
    if r.rotations <= keep {
      ReadAbove(files, Content(files, 0) + [line], keep, r.rotations + 1);
    }
  }

  class Log {
    /** Config overrides; zero or less means the default. */
    const maxBytes: int
    const maxBackups: int

    /** The app dir's log files; numbers above the backup count are other programs' leftovers. */
    var files: Files
    ghost var run: Run

    function Max(): int { if maxBytes > 0 then maxBytes else MAX_AUDIT_LOG_SIZE }
    function Keep(): nat { if maxBackups > 0 then maxBackups else DEFAULT_AUDIT_LOG_BACKUPS }

    ghost predicate Valid()
      reads this
    {
      Invariant(files, Keep(), Max(), run)
    }

    /** Takes over whatever files are there, gaps included; `longest` bounds how far they overshoot the limit. */
    constructor (maxBytes: int, maxBackups: int, files: Files, ghost longest: nat)
      requires forall i :: 0 <= i <= (if maxBackups > 0 then maxBackups else DEFAULT_AUDIT_LOG_BACKUPS) ==>
                 Size(Content(files, i)) < (if maxBytes > 0 then maxBytes else MAX_AUDIT_LOG_SIZE) + longest
      ensures this.maxBytes == maxBytes && this.maxBackups == maxBackups && this.files == files
      ensures Max() == if maxBytes > 0 then maxBytes else 10485760
      ensures Keep() == if maxBackups > 0 then maxBackups else 3
      ensures Valid()
      ensures run == Run(Read(files, Keep(), 0), 0, |Read(files, Keep(), 0)|, 0, longest)
    {
      this.maxBytes, this.maxBackups, this.files := maxBytes, maxBackups, files;
      var keep: nat := if maxBackups > 0 then maxBackups else DEFAULT_AUDIT_LOG_BACKUPS;
      run := Run(Read(files, keep, 0), 0, |Read(files, keep, 0)|, 0, longest);
      new;
      ReadSplit(files, keep, 1, 0);
    }

    /** Discards the last slot, then moves each generation down, oldest first. */
    method RotateGenerations(keep0: int)
      modifies this`files
      ensures files == Shifted(old(files), if keep0 < 1 then 1 else keep0)
    {
      var keep: nat := if keep0 < 1 then 1 else keep0;
      files := files - {keep};
      var i: int := keep - 1;
      while i >= 0
        invariant -1 <= i < keep
        invariant forall j :: SlotAt(files, j) == MidRotation(old(files), keep, i, j)
      {
        ghost var cur := files;
        if i in files {
          files := (files - {i})[i + 1 := files[i]];
        }
        MidRotationStep(old(files), keep, i, cur, files);
        i := i - 1;
      }
      ShiftedSlots(old(files), keep, files);
    }

    method RotateIfLarge()
      requires Valid()
      modifies this
      ensures Valid() && Size(Content(files, 0)) < Max()
      ensures run.all == old(run.all) && run.inherited == old(run.inherited) && run.longest == old(run.longest)
      ensures old(Size(Content(files, 0))) < Max() ==> files == old(files) && run == old(run)
      ensures old(Size(Content(files, 0))) >= Max() ==>
                files == Shifted(old(files), Keep()) && run.rotations == old(run.rotations) + 1
    {
      if 0 !in files || Size(files[0]) < Max() {
        return;
      }
      RotateKeeps(files, Keep(), Max(), run);
      run := run.(dropped := run.dropped + |Content(files, Keep())|, rotations := run.rotations + 1);
      RotateGenerations(Keep());
    }

    /**
     * After any number of writes the kept generations, oldest to newest, are a
     * suffix of every line written, and take less than (keep + 1) * (max + longest
     * line) bytes.
     */
    method WriteLine(line: string)
      requires Valid()
      modifies this
      ensures Valid()
      ensures run.all == old(run.all) + [line] && run.inherited == old(run.inherited)
      ensures var mid := if Size(Content(old(files), 0)) < Max() then old(files) else Shifted(old(files), Keep());
              files == mid[0 := Content(mid, 0) + [line]]
      ensures run.longest == Longer(|line|, old(run.longest))
      ensures Read(files, Keep(), 0) == run.all[run.dropped..] && run.dropped < |run.all|
      ensures Size(Read(files, Keep(), 0)) < (Keep() + 1) * (Max() + run.longest)
    {
      RotateIfLarge();
      AppendKeeps(files, Keep(), Max(), run, line);
      AppendReads(files, Keep(), line);
      files := files[0 := Content(files, 0) + [line]];
      run := run.(all := run.all + [line], longest := Longer(|line|, run.longest));
      FootprintBounded(files, Keep(), Max(), run);
    }
  }

  // ---- consequences ----

  /** The disk footprint of one app's log stays under (keep + 1) * (max + longest line). */
  lemma {:induction false} FootprintBounded(files: Files, keep: nat, max: int, r: Run)
    requires Invariant(files, keep, max, r)
    ensures Size(Read(files, keep, 0)) < (keep + 1) * (max + r.longest)
  {
    BoundedFiles(files, keep, max + r.longest);
  }

  lemma {:induction false} BoundedFiles(files: Files, keep: nat, bound: int)
    requires FilesBounded(files, keep, bound)
    ensures Size(Read(files, keep, 0)) < (keep + 1) * bound
  {
    TotalUnder(files, keep, bound);
  }

  /** A line written in this run is lost only when at least keep * max newer bytes are kept. */
  lemma LossNeedsFullLogs(files: Files, keep: nat, max: int, r: Run)
    requires Invariant(files, keep, max, r)
    requires r.dropped > r.inherited
    ensures Size(Read(files, keep, 1)) >= keep * max
  {
    TotalAtLeast(files, keep, max);
  }
}
