/** The audit log and its rotations (runtime.go:55-82, 122-221).

    Every write, rename, removal and sync may fail, and the process may end between any two of
    them: a method that returns early leaves the state that a crash at that point would leave. */
module AuditLog {
  import opened Basics
  import opened AuditLines

  const MAX_LOG_BYTES := 0x100_0000
  const RETENTION := 5

  /** The active log is file 0; rotation moves file `k` to `k + 1`. */
  type Files = map<nat, Bytes>

  function LinesOf(files: Files, k: nat): seq<Bytes> {
    if k in files then Lines(files[k]) else []
  }

  /** The complete lines of the files from `k` down to the active log. */
  function ReadFrom(files: Files, k: nat): seq<Bytes> {
    if k == 0 then LinesOf(files, 0) else LinesOf(files, k) + ReadFrom(files, k - 1)
  }

  function Reading(files: Files): seq<Bytes> {
    ReadFrom(files, 5)
  }

  predicate IsSuffix(part: seq<Bytes>, all: seq<Bytes>) {
    |part| <= |all| && part == all[|all| - |part|..]
  }

  /** Every line is good, and only the active log may end in a torn line. */
  ghost predicate Clean(parses: Bytes -> bool, files: Files) {
    && (forall k :: k in files ==> k <= RETENTION && AllGood(parses, Lines(files[k])))
    && (forall k :: k in files && k > 0 ==> Blank(Rest(files[k])))
  }

  lemma {:induction false} SameFiles(a: Files, b: Files, k: nat)
    requires forall i: nat :: i <= k ==> LinesOf(a, i) == LinesOf(b, i)
    ensures ReadFrom(a, k) == ReadFrom(b, k)
  {
    if k == 0 {
    } else {
      SameFiles(a, b, k - 1);
    }
  }

  /** Moving a file to the next, vacant number changes nothing for a reader. */
  lemma {:induction false} ShiftKeepsReading(files: Files, k: nat, n: nat)
    requires k in files && k + 1 !in files && k + 1 <= n
    ensures ReadFrom(files[k + 1 := files[k]] - {k}, n) == ReadFrom(files, n)
  {
    hide Lines;
    var after := files[k + 1 := files[k]] - {k};
    assert forall i :: i != k && i != k + 1 ==> LinesOf(after, i) == LinesOf(files, i);
    if n > k + 1 {
      ShiftKeepsReading(files, k, n - 1);
    } else {
      assert LinesOf(after, k + 1) == LinesOf(files, k) && LinesOf(after, k) == [] && LinesOf(files, k + 1) == [];
      if k > 0 {
        SameFiles(after, files, k - 1);
      }
    }
  }

  /** Only the oldest lines go with the last file. */
  lemma DropKeepsSuffix(files: Files, all: seq<Bytes>)
    requires IsSuffix(Reading(files), all)
    ensures Reading(files) == LinesOf(files, RETENTION) + Reading(files - {RETENTION})
    ensures IsSuffix(Reading(files - {RETENTION}), all)
  {
    var after := files - {RETENTION};
    assert forall i: nat :: i < RETENTION ==> LinesOf(after, i) == LinesOf(files, i);
    SameFiles(after, files, RETENTION - 1);
    var less := ReadFrom(files, RETENTION - 1);
    assert Reading(after) == less;
    assert less == Reading(files)[|Reading(files)| - |less|..];
  }

  /** A change of the active log changes the end of what is read. */
  lemma {:induction false} ActiveIsLast(files: Files, active: Bytes, lines: seq<Bytes>, n: nat)
    requires Lines(active) == LinesOf(files, 0) + lines
    ensures ReadFrom(files[0 := active], n) == ReadFrom(files, n) + lines
  {
    hide Lines;
    if n == 0 {
    } else {
      ActiveIsLast(files, active, lines, n - 1);
      assert LinesOf(files[0 := active], n) == LinesOf(files, n);
      assert LinesOf(files, n) + (ReadFrom(files, n - 1) + lines) == LinesOf(files, n) + ReadFrom(files, n - 1) + lines;
    }
  }

  lemma ReadingEndsWith(files: Files, active: Bytes, lines: seq<Bytes>)
    requires Lines(active) == LinesOf(files, 0) + lines
    ensures Reading(files[0 := active]) == Reading(files) + lines
  {
    ActiveIsLast(files, active, lines, RETENTION);
  }

  lemma NothingRead()
    ensures Lines([]) == [] && Blank(Rest([])) && Blank([])
  {
  }

  lemma SuffixGrows(part: seq<Bytes>, all: seq<Bytes>, more: seq<Bytes>)
    requires IsSuffix(part, all)
    ensures IsSuffix(part + more, all + more)
  {
    assert (all + more)[|all| - |part|..] == all[|all| - |part|..] + more;
  }

  lemma CleanAfterShift(parses: Bytes -> bool, files: Files, k: nat)
    requires Clean(parses, files) && k in files && k < RETENTION && (k == 0 ==> Blank(Rest(files[0])))
    ensures Clean(parses, files[k + 1 := files[k]] - {k})
  {
  }

  /** `after` is `before` without its first lines `lost`, and with the event as its last line. */
  predicate Gains(before: seq<Bytes>, lost: seq<Bytes>, after: seq<Bytes>, event: Bytes) {
    after != [] && lost + after[..|after| - 1] == before && Trim(after[|after| - 1]) == Trim(event)
  }

  /** Every file has moved to the next number, and the oldest is gone. */
  predicate Shifted(before: Files, after: Files) {
    forall k: nat :: 1 <= k <= 5 ==> (k in after <==> k - 1 in before) && (k in after ==> after[k] == before[k - 1])
  }

  /** The files up to number `k` are as before, and above `k + 1` they have moved. */
  predicate ShiftedAbove(before: Files, after: Files, k: int) {
    && (forall i: nat :: i <= k ==> (i in after <==> i in before) && (i in after ==> after[i] == before[i]))
    && (forall i: nat :: k + 2 <= i <= RETENTION ==> (i in after <==> i - 1 in before) && (i in after ==> after[i] == before[i - 1]))
  }

  lemma GainsAfterLoss(before: seq<Bytes>, lost: seq<Bytes>, between: seq<Bytes>, after: seq<Bytes>, event: Bytes)
    requires lost + between == before && Gains(between, [], after, event)
    ensures Gains(before, lost, after, event)
  {
  }

  lemma DroppedIsShifted(before: Files)
    ensures ShiftedAbove(before, before - {RETENTION}, RETENTION - 1)
  {
  }

  lemma ShiftOne(before: Files, files: Files, k: nat)
    requires ShiftedAbove(before, files, k) && k < RETENTION && k + 1 !in files
    ensures ShiftedAbove(before, if k in files then files[k + 1 := files[k]] - {k} else files, k - 1)
  {
  }

  lemma AllShifted(before: Files, files: Files, active: Bytes)
    requires ShiftedAbove(before, files, -1) || Shifted(before, files)
    ensures Shifted(before, files[0 := active])
  {
  }

  class Log {
    var files: Files
    var isOpen: bool
    var healthy: bool
    const parses: Bytes -> bool
    /** No write, rename, removal or sync fails, and the process does not end. */
    const steady: bool
    /** Every line that was ever completely written, in order. */
    ghost var written: seq<Bytes>

    ghost predicate Valid()
      reads this
    {
      && Clean(parses, files)
      && IsSuffix(Reading(files), written)
      && (isOpen && healthy ==> 0 in files && Blank(Rest(files[0])))
    }

    /** A state directory without an audit log. */
    constructor (parses: Bytes -> bool, steady: bool)
      ensures Valid() && !isOpen && written == [] && files == map[]
      ensures this.parses == parses && this.steady == steady
    {
      this.parses, this.steady := parses, steady;
      files, isOpen, healthy, written := map[], false, false, [];
    }

    method Fault() returns (fault: bool)
      ensures steady ==> !fault
    {
      fault := *;
      fault := fault && !steady;
    }

    /** The process ends. */
    method Die()
      requires Valid()
      modifies `isOpen, `healthy
      ensures Valid() && !isOpen && !healthy
    {
      isOpen, healthy := false, false;
    }

    /** Opens the log at a start, which cuts off at most a torn last line.  What this program
        wrote is never refused. */
    method Open() returns (ok: bool)
      requires Valid() && !isOpen
      modifies `files, `isOpen, `healthy
      ensures Valid() && Reading(files) == old(Reading(files)) && isOpen == healthy == ok
      ensures ok ==> 0 in files && files[0] == if 0 in old(files) then Repaired(old(files)[0]) else []
      ensures files - {0} == old(files) - {0}
      ensures steady ==> ok
    {
      ok := OpenActive();
      healthy := ok;
    }

    /** Repairs the active log, or creates an empty one, and opens it. */
    method OpenActive() returns (ok: bool)
      requires Valid() && !isOpen
      modifies `files, `isOpen
      ensures Valid() && Reading(files) == old(Reading(files))
      ensures isOpen == ok && (ok ==> 0 in files && Blank(Rest(files[0])))
      ensures ok ==> files[0] == if 0 in old(files) then Repaired(old(files)[0]) else []
      ensures files - {0} == old(files) - {0}
      ensures ok && 0 !in old(files) ==> files == old(files)[0 := []]
      ensures steady ==> ok
    {
      hide Lines, Rest, Good, Blank, Reading;
      var fault := Fault();
      if fault {
        return false;
      }
      NothingRead();
      var contents: Bytes := [];
      if 0 in files {
        var accepted;
        accepted, contents := Validate(parses, files[0]);
        if !accepted {
          assert false;
          return false;
        }
        RepairIsIdempotent(files[0]);
      }
      ReadingEndsWith(files, contents, []);
      files := files[0 := contents];
      fault := Fault();
      isOpen := !fault;
      return !fault;
    }

    /** The last complete line of the active log is this event. */
    predicate EndsWith(event: Bytes)
      reads this
    {
      0 in files && var active := Lines(files[0]); active != [] && Trim(active[|active| - 1]) == Trim(event)
    }

    /** Appends one event.  Success means that its line is complete in the active log; after a
        failure nothing more is written until the log is opened again. */
    method Record(event: Bytes) returns (ok: bool)
      requires Valid() && Good(parses, event) && NEWLINE !in event
      modifies this
      ensures Valid()
      ensures if !ok then written == old(written) || (!healthy && |written| == |old(written)| + 1 && written[..|old(written)|] == old(written))
              else healthy && |written| == |old(written)| + 1 && written[..|old(written)|] == old(written)
                   && Reading(files) != [] && Trim(written[|old(written)|]) == Trim(event)
      ensures !ok ==> !(healthy && isOpen)
      ensures !old(healthy && isOpen) ==> !ok && files == old(files)
      ensures ok ==> 0 in files && (|files[0]| <= MAX_LOG_BYTES || |files[0]| == |event| + 1)
      ensures ok ==> EndsWith(event)
      ensures steady ==> (ok <==> old(healthy && isOpen))
      ensures ok ==>
                || (Gains(old(Reading(files)), [], Reading(files), event) && files - {0} == old(files) - {0})
                || (Gains(old(Reading(files)), LinesOf(old(files), 5), Reading(files), event) && files[0] == event + [10]
                    && Shifted(old(files), files))
      ensures steady && ok && |old(files)[0]| + |event| + 1 <= 16 * 1024 * 1024 ==>
                Gains(old(Reading(files)), [], Reading(files), event) && files - {0} == old(files) - {0}
      ensures ok && |old(files)[0]| + |event| + 1 > 16 * 1024 * 1024 ==> Shifted(old(files), files)
    {
      hide Lines, Rest, Good, Blank, Reading, LinesOf, Shifted, Gains, Trim, Clean, IsSuffix;
      if !healthy || !isOpen {
        return false;
      }
      var unknown := Fault();
      ghost var moved := false;
      if unknown || |files[0]| + |event| + 1 > MAX_LOG_BYTES {
        var rotated := Rotate();
        if !rotated {
          healthy := false;
          return false;
        }
        moved := true;
      }
      ghost var between := files;
      ok := Append(event);
      if ok && moved {
        GainsAfterLoss(old(Reading(files)), LinesOf(old(files), RETENTION), Reading(between), Reading(files), event);
        AllShifted(old(files), between, files[0]);
      }
    }

    method Append(event: Bytes) returns (ok: bool)
      requires Valid() && isOpen && healthy && Good(parses, event) && NEWLINE !in event
      modifies `files, `healthy, `written
      ensures Valid()
      ensures ok ==> healthy && Reading(files) != [] && 0 in old(files) && 0 in files && |files[0]| == |old(files)[0]| + |event| + 1
      ensures if ok || written != old(written) then
                && |written| == |old(written)| + 1 && written[..|old(written)|] == old(written)
                && Trim(written[|old(written)|]) == Trim(event)
              else !healthy
      ensures !ok ==> !healthy
      ensures ok ==> EndsWith(event)
      ensures steady ==> ok
      ensures 0 in old(files) && (ok ==> files == old(files)[0 := old(files)[0] + event + [10]])
      ensures ok ==> Gains(old(Reading(files)), [], Reading(files), event)
    {
      hide Lines, Rest, Good, Blank, Reading, Trim;
      assert (event + [NEWLINE])[..|event| + 1] == event + [10];
      assert files[0] + (event + [10]) == files[0] + event + [10];
      var torn := Fault();
      var count := |event| + 1;
      if torn {
        count :| 0 <= count <= |event| + 1;
      }
      NothingRead();
      AppendingStaysGood(parses, files[0], event, count);
      TrimAfterBlank(Rest(files[0]), event);
      ghost var line := if count == |event| + 1 then [Rest(files[0]) + event] else [];
      var contents := files[0] + (event + [NEWLINE])[..count];
      ReadingEndsWith(files, contents, line);
      SuffixGrows(Reading(files), written, line);
      files := files[0 := contents];
      written := written + line;
      var unsynced := Fault();
      ok := count == |event| + 1 && !unsynced;
      healthy := ok;
    }

    /** Moves every file to the next number and starts a new active log.  Only the lines of the
        last file are given up. */
    method Rotate() returns (ok: bool)
      requires Valid() && isOpen && healthy
      modifies `files, `isOpen
      ensures Valid()
      ensures ok ==> isOpen && 0 in files && files[0] == [] && Blank(Rest(files[0]))
      ensures ok ==> Shifted(old(files), files) && LinesOf(old(files), RETENTION) + Reading(files) == old(Reading(files))
      ensures Reading(files) == old(Reading(files)) || LinesOf(old(files), RETENTION) + Reading(files) == old(Reading(files))
      ensures steady ==> ok
    {
      hide Lines, Rest, Blank, Reading, LinesOf, Shifted, ShiftedAbove;
      var fault := Fault();
      if fault {
        return false;
      }
      isOpen := false;
      ok := DropLast();
      if !ok {
        return false;
      }
      DroppedIsShifted(old(files));
      var index := RETENTION - 1;
      while index >= 1
        invariant 0 <= index <= RETENTION - 1
        invariant Valid() && !isOpen && index + 1 !in files && 0 in files && Blank(Rest(files[0]))
        invariant LinesOf(old(files), RETENTION) + Reading(files) == old(Reading(files))
        invariant ShiftedAbove(old(files), files, index)
      {
        ShiftOne(old(files), files, index);
        ok := Shift(index);
        if !ok {
          return false;
        }
        index := index - 1;
      }
      ShiftOne(old(files), files, 0);
      ok := Shift(0);
      if ok {
        AllShifted(old(files), files, []);
        ok := OpenActive();
      }
    }

    method DropLast() returns (ok: bool)
      requires Valid() && !isOpen
      modifies `files
      ensures Valid() && (0 in old(files) ==> 0 in files && files[0] == old(files)[0])
      ensures ok ==> files == old(files) - {RETENTION}
      ensures ok ==> RETENTION !in files && LinesOf(old(files), RETENTION) + Reading(files) == old(Reading(files))
      ensures Reading(files) == old(Reading(files)) || LinesOf(old(files), RETENTION) + Reading(files) == old(Reading(files))
      ensures steady ==> ok
    {
      var fault := Fault();
      if fault {
        return false;
      }
      DropKeepsSuffix(files, written);
      files := files - {RETENTION};
      fault := Fault();
      return !fault;
    }

    /** Renames one file to the next number, if it is there. */
    method Shift(k: nat) returns (ok: bool)
      requires Valid() && !isOpen && k < RETENTION && k + 1 !in files && (k == 0 ==> 0 in files && Blank(Rest(files[0])))
      modifies `files
      ensures Valid() && Reading(files) == old(Reading(files))
      ensures ok ==> k !in files
      ensures ok ==> files == if k in old(files) then old(files)[k + 1 := old(files)[k]] - {k} else old(files)
      ensures k > 0 && 0 in old(files) ==> 0 in files && files[0] == old(files)[0]
      ensures steady ==> ok
    {
      var fault := Fault();
      if fault {
        return false;
      }
      if k in files {
        ShiftKeepsReading(files, k, RETENTION);
        CleanAfterShift(parses, files, k);
        files := files[k + 1 := files[k]] - {k};
      }
      fault := Fault();
      return !fault;
    }
  }
}
