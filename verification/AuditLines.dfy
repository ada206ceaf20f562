/** The lines of an audit log and the repair of a torn one (runtime.go:84-121), byte by byte. */
module AuditLines {
  import opened Basics

  const NEWLINE: byte := 10

  predicate IsSpace(b: byte) {
    b == 32 || 9 <= b <= 13
  }

  predicate Blank(s: Bytes) {
    forall i :: 0 <= i < |s| ==> IsSpace(s[i])
  }

  function TrimLeft(s: Bytes): Bytes {
    if s != [] && IsSpace(s[0]) then TrimLeft(s[1..]) else s
  }

  function TrimRight(s: Bytes): Bytes {
    if s != [] && IsSpace(s[|s| - 1]) then TrimRight(s[..|s| - 1]) else s
  }

  function Trim(s: Bytes): Bytes {
    TrimRight(TrimLeft(s))
  }

  /** The complete lines of a log, without their newlines. */
  function Lines(s: Bytes): seq<Bytes>
    decreases |s|
  {
    var n := FirstNewline(s);
    if n == |s| then [] else [s[..n]] + Lines(s[n + 1..])
  }

  /** What follows the last newline. */
  function Rest(s: Bytes): Bytes
    decreases |s|
  {
    var n := FirstNewline(s);
    if n == |s| then s else Rest(s[n + 1..])
  }

  function FirstNewline(s: Bytes): (n: nat)
    ensures n <= |s| && NEWLINE !in s[..n] && (n < |s| ==> s[n] == NEWLINE)
  {
    if s == [] || s[0] == NEWLINE then 0 else 1 + FirstNewline(s[1..])
  }

  /** The lines, each with its newline. */
  function Terminated(lines: seq<Bytes>): Bytes {
    if lines == [] then [] else lines[0] + [10] + Terminated(lines[1..])
  }

  predicate NoNewlines(lines: seq<Bytes>) {
    forall i :: 0 <= i < |lines| ==> NEWLINE !in lines[i]
  }

  lemma {:induction false} FirstOf(line: Bytes, tail: Bytes)
    requires NEWLINE !in line
    ensures FirstNewline(line + [NEWLINE] + tail) == |line|
    ensures FirstNewline(line) == |line|
  {
    if line == [] {
    } else {
      FirstOf(line[1..], tail);
      assert (line + [NEWLINE] + tail)[1..] == line[1..] + [NEWLINE] + tail;
    }
  }

  lemma LinesStep(s: Bytes)
    ensures
      var n := FirstNewline(s);
      && (n == |s| ==> Lines(s) == [] && Rest(s) == s && NEWLINE !in s)
      && (n < |s| ==> Lines(s) == [s[..n]] + Lines(s[n + 1..]) && Rest(s) == Rest(s[n + 1..])
                      && s == s[..n] + [NEWLINE] + s[n + 1..])
  {
    hide FirstNewline;
    var n := FirstNewline(s);
    if n == |s| {
      assert s[..n] == s;
    } else {
      CutAt(s, n);
    }
  }

  lemma CutAt(s: Bytes, n: nat)
    requires n < |s| && s[n] == NEWLINE
    ensures s == s[..n] + [NEWLINE] + s[n + 1..]
  {
  }

  /** One more line was passed, after `end` bytes and the lines `done`. */
  lemma PassLine(contents: Bytes, end: nat, n: nat, done: seq<Bytes>, tail: seq<Bytes>, lines: seq<Bytes>)
    requires end + n < |contents| && contents[end + n] == NEWLINE
    requires lines == done + ([contents[end..][..n]] + tail)
    ensures contents[end..][n + 1..] == contents[end + n + 1..]
    ensures contents[..end + n + 1] == contents[..end] + contents[end..][..n] + [NEWLINE]
    ensures lines == done + [contents[end..][..n]] + tail && contents[end..][..n] in lines
  {
    assert lines[|done|] == contents[end..][..n];
  }

  lemma TerminatedFirst(line: Bytes, lines: seq<Bytes>)
    ensures Terminated([line] + lines) == line + [NEWLINE] + Terminated(lines)
  {
    assert ([line] + lines)[1..] == lines;
  }

  /** Every log is its lines followed by its rest, in one way only. */
  lemma {:induction false} LinesAndRest(s: Bytes)
    ensures s == Terminated(Lines(s)) + Rest(s) && NoNewlines(Lines(s)) && NEWLINE !in Rest(s)
    decreases |s|
  {
    LinesStep(s);
    hide Lines, Rest, Terminated;
    var n := FirstNewline(s);
    if n == |s| {
      NothingTerminated();
    } else {
      var tail := s[n + 1..];
      LinesAndRest(tail);
      TerminatedFirst(s[..n], Lines(tail));
    }
  }

  lemma NothingTerminated()
    ensures Terminated([]) == []
  {
  }

  lemma {:induction false} SplitLog(lines: seq<Bytes>, rest: Bytes)
    requires NoNewlines(lines) && NEWLINE !in rest
    ensures Lines(Terminated(lines) + rest) == lines && Rest(Terminated(lines) + rest) == rest
  {
    if lines == [] {
      FirstOf(rest, []);
      assert Terminated(lines) + rest == rest;
    } else {
      var s, tail := Terminated(lines) + rest, Terminated(lines[1..]) + rest;
      assert s == lines[0] + [NEWLINE] + tail;
      FirstOf(lines[0], tail);
      assert s[..|lines[0]|] == lines[0] && s[|lines[0]| + 1..] == tail;
      SplitLog(lines[1..], rest);
    }
  }

  /** `parses` says which trimmed lines are audit events. */
  predicate Good(parses: Bytes -> bool, line: Bytes) {
    Trim(line) != [] && parses(Trim(line))
  }

  predicate AllGood(parses: Bytes -> bool, lines: seq<Bytes>) {
    forall i :: 0 <= i < |lines| ==> Good(parses, lines[i])
  }

  /** What is left of a log that is accepted: its lines, and a blank rest. */
  function Repaired(s: Bytes): Bytes {
    Terminated(Lines(s)) + if Blank(Rest(s)) then Rest(s) else []
  }

  lemma {:induction false} TrimOfBlank(s: Bytes)
    ensures Trim(s) == [] <==> Blank(s)
  {
    TrimLeftOfBlank(s);
    var t := TrimLeft(s);
    if t == [] {
    } else {
      TrimRightKeeps(t);
    }
  }

  lemma {:induction false} TrimLeftOfBlank(s: Bytes)
    ensures TrimLeft(s) == [] <==> Blank(s)
    ensures TrimLeft(s) != [] ==> !IsSpace(TrimLeft(s)[0])
  {
    if s == [] || !IsSpace(s[0]) {
    } else {
      TrimLeftOfBlank(s[1..]);
      assert forall i :: 0 < i < |s| ==> s[i] == s[1..][i - 1];
    }
  }

  lemma {:induction false} TrimRightKeeps(s: Bytes)
    requires s != [] && !IsSpace(s[0])
    ensures TrimRight(s) != []
  {
    if !IsSpace(s[|s| - 1]) {
    } else {
      TrimRightKeeps(s[..|s| - 1]);
    }
  }

  /** ASCII tab, line feed, vertical tab, form feed, carriage return and blank. */
  predicate IsWhite(b: byte) {
    b in {9, 10, 11, 12, 13, 32}
  }

  lemma {:induction false} TrimLeftIsExact(s: Bytes)
    ensures
      var t := TrimLeft(s);
      && |t| <= |s| && t == s[|s| - |t|..]
      && (forall i :: 0 <= i < |s| - |t| ==> IsWhite(s[i]))
      && (t != [] ==> !IsWhite(t[0]))
  {
    if s == [] || !IsSpace(s[0]) {
    } else {
      TrimLeftIsExact(s[1..]);
      assert forall i :: 0 < i < |s| ==> s[i] == s[1..][i - 1];
    }
  }

  lemma {:induction false} TrimRightIsExact(s: Bytes)
    ensures
      var t := TrimRight(s);
      && |t| <= |s| && t == s[..|t|]
      && (forall i :: |t| <= i < |s| ==> IsWhite(s[i]))
      && (t != [] ==> !IsWhite(t[|t| - 1]))
  {
    if s == [] || !IsSpace(s[|s| - 1]) {
    } else {
      var r := s[..|s| - 1];
      TrimRightIsExact(r);
      assert forall i :: 0 <= i < |r| ==> r[i] == s[i];
    }
  }

  /** Trimming takes away exactly the white space at both ends. */
  lemma TrimIsExact(s: Bytes)
    ensures
      var t, at := Trim(s), |s| - |TrimLeft(s)|;
      && 0 <= at && at + |t| <= |s| && t == s[at..at + |t|]
      && (forall i :: 0 <= i < at || at + |t| <= i < |s| ==> IsWhite(s[i]))
      && (t != [] ==> !IsWhite(t[0]) && !IsWhite(t[|t| - 1]))
  {
    TrimLeftIsExact(s);
    TrimRightIsExact(TrimLeft(s));
    hide IsWhite, TrimLeft, TrimRight;
    var l, at := TrimLeft(s), |s| - |TrimLeft(s)|;
    assert forall i :: 0 <= i < |l| ==> l[i] == s[at + i];
    assert forall i :: at <= i < |s| ==> s[i] == l[i - at];
  }

  /** Every line is more than white space, and an event once that is trimmed. */
  lemma AllGoodMeans(parses: Bytes -> bool, lines: seq<Bytes>)
    ensures AllGood(parses, lines) <==> forall i :: 0 <= i < |lines| ==> Trim(lines[i]) != [] && parses(Trim(lines[i]))
  {
  }

  /** Checks a log; a last fragment that is not blank is cut off. */
  method Validate(parses: Bytes -> bool, contents: Bytes) returns (ok: bool, repaired: Bytes)
    ensures ok <==> AllGood(parses, Lines(contents))
    ensures repaired == if ok then Repaired(contents) else contents
  {
    repaired := contents;
    LinesAndRest(contents);
    var validEnd := 0;
    ghost var done: seq<Bytes> := [];
    hide Trim, Good, Scanned, Lines, Rest, Terminated, FirstNewline;
    ScanStart(contents);
    while validEnd < |contents|
      invariant 0 <= validEnd <= |contents|
      invariant Scanned(contents, validEnd, done) && AllGood(parses, done)
    {
      var s := contents[validEnd..];
      var next := FirstNewline(s);
      ScanOn(contents, validEnd, done);
      if next == |s| {
        TrimOfBlank(s);
        if Trim(s) == [] {
          return true, contents;
        }
        return true, contents[..validEnd];
      }
      var line := Trim(s[..next]);
      IsGood(parses, s[..next]);
      if line == [] || !parses(line) {
        return false, contents;
      }
      done := done + [s[..next]];
      validEnd := validEnd + next + 1;
    }
    ScanOn(contents, validEnd, done);
    assert contents[..validEnd] == contents;
    return true, contents;
  }

  lemma IsGood(parses: Bytes -> bool, line: Bytes)
    ensures Good(parses, line) <==> Trim(line) != [] && parses(Trim(line))
  {
  }

  /** The lines before `end` have been scanned. */
  predicate Scanned(contents: Bytes, end: nat, done: seq<Bytes>) {
    && end <= |contents| && contents[..end] == Terminated(done)
    && Lines(contents) == done + Lines(contents[end..]) && Rest(contents) == Rest(contents[end..])
  }

  lemma ScanStart(contents: Bytes)
    ensures Scanned(contents, 0, [])
  {
    assert contents[0..] == contents;
  }

  lemma ScanOn(contents: Bytes, end: nat, done: seq<Bytes>)
    requires Scanned(contents, end, done)
    ensures
      var s := contents[end..];
      var next := FirstNewline(s);
      && contents == contents[..end] + s && contents[..end] == Terminated(done)
      && (s == [] ==> next == |s|)
      && (next == |s| ==> Lines(contents) == done && Rest(contents) == s)
      && (next < |s| ==> s[..next] in Lines(contents) && Scanned(contents, end + next + 1, done + [s[..next]]))
  {
    hide Lines, Rest, Terminated, FirstNewline;
    var s := contents[end..];
    var next := FirstNewline(s);
    LinesStep(s);
    if next < |s| {
      TerminatedMore(done, s[..next]);
      PassLine(contents, end, next, done, Lines(s[next + 1..]), Lines(contents));
    }
  }

  lemma {:induction false} TerminatedMore(lines: seq<Bytes>, line: Bytes)
    ensures Terminated(lines + [line]) == Terminated(lines) + line + [NEWLINE]
  {
    if lines == [] {
      assert lines + [line] == [line] && [line][1..] == [];
    } else {
      TerminatedMore(lines[1..], line);
      assert (lines + [line])[1..] == lines[1..] + [line];
    }
  }

  /** The repair keeps every complete line and is done once and for all. */
  lemma RepairIsIdempotent(s: Bytes)
    ensures Lines(Repaired(s)) == Lines(s) && Blank(Rest(Repaired(s))) && Repaired(Repaired(s)) == Repaired(s)
    ensures Repaired(s) <= s
  {
    LinesAndRest(s);
    SplitLog(Lines(s), if Blank(Rest(s)) then Rest(s) else []);
  }

  lemma {:induction false} TrimAfterBlank(blank: Bytes, s: Bytes)
    requires Blank(blank)
    ensures Trim(blank + s) == Trim(s)
  {
    if blank != [] {
      TrimAfterBlank(blank[1..], s);
      assert blank[1..] + s == (blank + s)[1..];
    } else {
      assert blank + s == s;
    }
  }

  /** A log to which a record, or a part of it, was appended after a repair: its lines are still
      good, and the record is one of them exactly when it was written with its newline. */
  lemma AppendingStaysGood(parses: Bytes -> bool, s: Bytes, record: Bytes, written: nat)
    requires AllGood(parses, Lines(s)) && Blank(Rest(s)) && Good(parses, record) && NEWLINE !in record
    requires written <= |record| + 1
    ensures
      var t := s + (record + [NEWLINE])[..written];
      && AllGood(parses, Lines(t))
      && Lines(t) == (if written == |record| + 1 then Lines(s) + [Rest(s) + record] else Lines(s))
      && (written == |record| + 1 ==> Rest(t) == [])
  {
    LinesAndRest(s);
    hide Lines, Rest, Terminated, Trim, FirstNewline;
    var t := s + (record + [NEWLINE])[..written];
    if written == |record| + 1 {
      var line := Rest(s) + record;
      TrimAfterBlank(Rest(s), record);
      TerminatedMore(Lines(s), line);
      assert t == Terminated(Lines(s) + [line]) + [];
      SplitLog(Lines(s) + [line], []);
    } else {
      var rest := Rest(s) + record[..written];
      assert (record + [NEWLINE])[..written] == record[..written];
      assert t == Terminated(Lines(s)) + rest;
      SplitLog(Lines(s), rest);
    }
  }
}
