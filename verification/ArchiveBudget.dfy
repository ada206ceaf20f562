/** The byte budget of an extraction (utils/archive_extract.go), against any archive: headers,
    sizes, payload and errors are whatever the archive makes of them. */
module ArchiveBudget {
  import opened Basics
  import opened ArchiveNames
  import opened ArchiveRegistry

  const COPY_BUFFER := 0x1_0000

  function Payload(files: seq<Bytes>): nat {
    if files == [] then 0 else Payload(files[..|files| - 1]) + |files[|files| - 1]|
  }

  lemma LastReplaced(done: seq<Bytes>, last: Bytes, next: Bytes)
    ensures (done + [last])[..|done|] + [next] == done + [next]
    ensures Payload(done + [next]) == Payload(done) + |next|
  {
    assert (done + [last])[..|done|] == done;
    PayloadOfLast(done, next);
  }

  lemma PayloadOfLast(files: seq<Bytes>, last: Bytes)
    ensures Payload(files + [last]) == Payload(files) + |last|
  {
    assert (files + [last])[..|files|] == files;
  }

  datatype Status = More | End | Error

  /** A reader under the control of the archive. */
  method ReadSome(limit: nat) returns (chunk: Bytes, status: Status)
    ensures |chunk| <= limit
  {
    var wanted: Bytes := *;
    status := *;
    chunk := if |wanted| <= limit then wanted else wanted[..limit];
  }

  /** Reads on after `done` bytes.  A sound reader delivers its content, in pieces of any length;
      any other delivers what it likes. */
  method ReadOn(steady: bool, content: Bytes, done: nat, limit: nat) returns (chunk: Bytes, status: Status)
    requires steady ==> done <= |content|
    ensures |chunk| <= limit
    ensures steady ==>
              && done + |chunk| <= |content| && chunk == content[done..done + |chunk|] && status != Error
              && (status == End ==> done + |chunk| == |content|) && (status == More && limit > 0 ==> chunk != [])
  {
    if !steady {
      chunk, status := ReadSome(limit);
      return;
    }
    var left := |content| - done;
    var count: nat :| count <= left && count <= limit && (left > 0 && limit > 0 ==> count > 0);
    chunk := content[done..done + count];
    var ends: bool := *;
    status := if count == left && (ends || count == 0) then End else More;
  }

  /** A reader of the compressed archive: however often it is asked, it delivers at most one byte
      more than the budget, and never that byte without the error. */
  class BudgetReader {
    var read: int
    var exceeded: bool
    ghost var delivered: Bytes
    /** What a sound reader underneath delivers. */
    const content: Bytes
    const steady: bool

    ghost predicate Valid()
      reads this
    {
      0 <= read == |delivered| <= MAX_BYTES + 1 && (read > MAX_BYTES ==> exceeded)
      && (steady ==> delivered <= content)
    }

    constructor (content: Bytes, steady: bool)
      ensures Valid() && delivered == [] && !exceeded && this.content == content && this.steady == steady
    {
      this.content, this.steady := content, steady;
      read, exceeded, delivered := 0, false, [];
    }

    method Read(size: nat) returns (chunk: Bytes, status: Status)
      requires Valid()
      modifies this
      ensures Valid() && |chunk| <= size && delivered == old(delivered) + chunk
      ensures status != Error ==> |delivered| <= MAX_BYTES && exceeded == old(exceeded)
      ensures |delivered| > MAX_BYTES ==> status == Error && exceeded
      ensures old(|delivered| > MAX_BYTES) ==> chunk == []
      ensures steady && |content| <= MAX_BYTES ==>
                status != Error && (status == End ==> delivered == content) && (status == More && size > 0 ==> chunk != [])
      ensures steady && |content| > MAX_BYTES ==> status != End && (status == More && size > 0 ==> chunk != [])
    {
      chunk, status := [], Error;
      var cancelled: bool := *;
      if cancelled && !steady {
        return;
      }
      var remaining := MAX_BYTES - read;
      if remaining < 0 {
        exceeded := true;
        return;
      }
      var limit := if size > remaining + 1 then remaining + 1 else size;
      chunk, status := ReadOn(steady, content, read, limit);
      read := read + |chunk|;
      delivered := delivered + chunk;
      if read > MAX_BYTES {
        exceeded := true;
        status := Error;
      }
    }
  }

  datatype HeaderKind = Plain | Folder | Other

  /** A header of an archive, as read from it. */
  datatype Header = Header(name: string, kind: HeaderKind, size: int)

  /** An entry of an archive with the payload that its reader delivers. */
  datatype Member = Member(header: Header, content: Bytes)

  /*** What a sound archive is ***/

  const TWO_TO_64 := 0x1_0000_0000_0000_0000

  /** A 64-bit pattern read as a signed integer. */
  function Int64Of(u: int): (i: int)
    ensures 0 <= u < TWO_TO_64 ==> -0x8000_0000_0000_0000 <= i < 0x8000_0000_0000_0000
    ensures exists wraps :: u - i == wraps * 0x1_0000_0000_0000_0000
  {
    assert u - u == 0 * 0x1_0000_0000_0000_0000 && u - (u - TWO_TO_64) == 1 * 0x1_0000_0000_0000_0000;
    if u < TWO_TO_64 / 2 then u else u - TWO_TO_64
  }

  /** A 64-bit pattern read as an unsigned integer. */
  function Uint64Of(i: int): (u: int)
    ensures -0x8000_0000_0000_0000 <= i < 0x8000_0000_0000_0000 ==> 0 <= u < 0x1_0000_0000_0000_0000 && Int64Of(u) == i
  {
    if i >= 0 then i else i + TWO_TO_64
  }

  /** The name without its literal leading `./` prefixes. */
  function WithoutDots(name: string): string {
    if |name| >= 2 && name[..2] == "./" then WithoutDots(name[2..]) else name
  }

  function Dots(count: nat): string {
    if count == 0 then "" else "./" + Dots(count - 1)
  }

  /** Nothing but `./` prefixes is taken away, and all of them are. */
  lemma {:induction false} OnlyDotsAreGone(name: string)
    ensures exists count :: name == Dots(count) + WithoutDots(name)
    ensures !("./" <= WithoutDots(name))
  {
    if "./" <= name {
      OnlyDotsAreGone(name[2..]);
      var count: nat :| name[2..] == Dots(count) + WithoutDots(name[2..]);
      assert name == "./" + name[2..];
      assert Dots(count + 1) == "./" + Dots(count);
      assert name == Dots(count + 1) + WithoutDots(name);
    } else {
      assert name == Dots(0) + WithoutDots(name);
    }
  }

  datatype Format = TAR | ZIP

  predicate IsRoot(h: Header) {
    h.kind == Folder && (h.name == "." || h.name == "./")
  }

  function SizeOf(format: Format, h: Header): int {
    if format == TAR then h.size else Int64Of(h.size)
  }

  function RawName(format: Format, h: Header): string {
    if format == TAR then WithoutDots(h.name) else h.name
  }

  /** The entry that a header stands for.  A TAR archive may have root entries and literal `./`
      prefixes; a ZIP archive declares sizes as unsigned numbers. */
  predicate StandsFor(format: Format, leafOk: string -> bool, h: Header, e: Entry) {
    && h.kind != Other && e.directory == (h.kind == Folder) && e.size == SizeOf(format, h)
    && (format == TAR ==> |h.name| <= 4096)
    && if format == TAR && IsRoot(h) then e.path == [] else Names(leafOk, RawName(format, h), e.path)
  }

  predicate Describe(format: Format, leafOk: string -> bool, members: seq<Member>, entries: seq<Entry>) {
    |entries| == |members| && forall i :: 0 <= i < |members| ==> StandsFor(format, leafOk, members[i].header, entries[i])
  }

  /** The payload of every file has its declared length. */
  predicate Delivered(members: seq<Member>) {
    forall i :: 0 <= i < |members| && members[i].header.kind == Plain ==> |members[i].content| == members[i].header.size
  }

  /** Some entry is more than the root. */
  predicate HasTop(entries: seq<Entry>) {
    exists i :: 0 <= i < |entries| && entries[i].path != []
  }

  /** What an extraction accepts when nothing else goes wrong. */
  ghost predicate Extractable(format: Format, fold: string -> string, leafOk: string -> bool, members: seq<Member>) {
    Delivered(members) && exists entries :: Describe(format, leafOk, members, entries) && Acceptable(fold, entries) && HasTop(entries)
  }

  /** The payloads of the files among the members, in their order. */
  function Contents(members: seq<Member>): seq<Bytes> {
    if members == [] then []
    else
      var last := members[|members| - 1];
      Contents(members[..|members| - 1]) + if last.header.kind == Plain then [last.content] else []
  }

  /** The declared sizes of the files among the entries. */
  function Sizes(entries: seq<Entry>): seq<int> {
    if entries == [] then []
    else
      var last := entries[|entries| - 1];
      Sizes(entries[..|entries| - 1]) + if last.directory then [] else [last.size]
  }

  /** The stage has one file for each file entry, each of its declared length. */
  predicate Matches(entries: seq<Entry>, files: seq<Bytes>) {
    |files| == |Sizes(entries)| && forall i :: 0 <= i < |files| ==> |files[i]| == Sizes(entries)[i]
  }

  lemma EntryIsUnique(format: Format, leafOk: string -> bool, h: Header, a: Entry, b: Entry)
    requires StandsFor(format, leafOk, h, a) && StandsFor(format, leafOk, h, b)
    ensures a == b
  {
    if !(format == TAR && IsRoot(h)) {
      PiecesOfName(leafOk, RawName(format, h), a.path);
      PiecesOfName(leafOk, RawName(format, h), b.path);
    }
  }

  lemma EntriesAreUnique(format: Format, leafOk: string -> bool, members: seq<Member>, a: seq<Entry>, b: seq<Entry>)
    requires Describe(format, leafOk, members, a) && Describe(format, leafOk, members, b)
    ensures a == b
  {
    forall i | 0 <= i < |members|
      ensures a[i] == b[i]
    {
      EntryIsUnique(format, leafOk, members[i].header, a[i], b[i]);
    }
  }

  /** A header under an ordinary name is acceptable when some path for that name is. */
  lemma EntryByName(format: Format, fold: string -> string, leafOk: string -> bool, h: Header, entries: seq<Entry>)
    requires h.kind != Other && (format == TAR ==> |h.name| <= 4096 && !IsRoot(h))
    ensures
      (exists path :: Names(leafOk, RawName(format, h), path)
                      && Acceptable(fold, entries + [Entry(path, h.kind == Folder, SizeOf(format, h))]))
      <==> exists e :: StandsFor(format, leafOk, h, e) && Acceptable(fold, entries + [e])
  {
    hide Acceptable, Names, RawName, SizeOf;
    forall path | Names(leafOk, RawName(format, h), path)
      ensures StandsFor(format, leafOk, h, Entry(path, h.kind == Folder, SizeOf(format, h)))
    {
    }
    forall e | StandsFor(format, leafOk, h, e)
      ensures e == Entry(e.path, h.kind == Folder, SizeOf(format, h)) && Names(leafOk, RawName(format, h), e.path)
    {
    }
  }

  lemma RootEntry(fold: string -> string, leafOk: string -> bool, h: Header, entries: seq<Entry>)
    requires IsRoot(h)
    ensures StandsFor(TAR, leafOk, h, Entry([], true, h.size))
    ensures Acceptable(fold, entries + [Entry([], true, h.size)]) <==>
            exists e :: StandsFor(TAR, leafOk, h, e) && Acceptable(fold, entries + [e])
  {
    hide Acceptable;
    forall e | StandsFor(TAR, leafOk, h, e)
      ensures e == Entry([], true, h.size)
    {
    }
  }

  lemma OneMoreDescribed(format: Format, leafOk: string -> bool, members: seq<Member>, n: nat, entries: seq<Entry>, e: Entry)
    requires n < |members| && Describe(format, leafOk, members[..n], entries) && StandsFor(format, leafOk, members[n].header, e)
    ensures Describe(format, leafOk, members[..n + 1], entries + [e])
    ensures Contents(members[..n + 1]) == Contents(members[..n]) + if members[n].header.kind == Plain then [members[n].content] else []
  {
    hide StandsFor;
    assert members[..n + 1][..n] == members[..n];
    forall i | 0 <= i < n + 1
      ensures StandsFor(format, leafOk, members[..n + 1][i].header, (entries + [e])[i])
    {
      assert i < n ==> StandsFor(format, leafOk, members[..n][i].header, entries[i]);
    }
  }

  /** An extractable archive extends whatever was accepted of it so far. */
  lemma NextIsAcceptable(format: Format, fold: string -> string, leafOk: string -> bool, members: seq<Member>, n: nat, entries: seq<Entry>)
    requires Extractable(format, fold, leafOk, members)
    requires n < |members| && Describe(format, leafOk, members[..n], entries)
    ensures exists e :: StandsFor(format, leafOk, members[n].header, e) && Acceptable(fold, entries + [e])
    ensures members[n].header.kind == Plain ==> |members[n].content| == members[n].header.size
  {
    hide Acceptable, StandsFor, HasTop;
    var all :| Describe(format, leafOk, members, all) && Acceptable(fold, all);
    assert Describe(format, leafOk, members[..n], all[..n]);
    EntriesAreUnique(format, leafOk, members[..n], entries, all[..n]);
    ShortIsAcceptable(fold, all, n + 1);
    assert all[..n + 1] == entries + [all[n]];
  }

  /** All of it was accepted. */
  lemma AllIsExtractable(format: Format, fold: string -> string, leafOk: string -> bool, members: seq<Member>, entries: seq<Entry>)
    requires Describe(format, leafOk, members, entries) && Acceptable(fold, entries) && Delivered(members)
    ensures Extractable(format, fold, leafOk, members) <==> HasTop(entries)
  {
    hide Acceptable, StandsFor, HasTop, Delivered;
    forall other | Describe(format, leafOk, members, other)
      ensures other == entries
    {
      EntriesAreUnique(format, leafOk, members, other, entries);
    }
  }

  class Extraction {
    const registry: Registry
    const leafOk: string -> bool
    /** What was written to each file of the stage, in the order of their creation. */
    var files: seq<Bytes>
    /** The archive is read without an error, nothing is in the way, and every write succeeds. */
    const steady: bool

    constructor (fold: string -> string, leafOk: string -> bool, steady: bool)
      ensures fresh(registry) && registry.Valid() && registry.added == [] && registry.fold == fold && files == []
      ensures this.leafOk == leafOk && this.steady == steady
    {
      this.leafOk, this.steady := leafOk, steady;
      registry := new Registry(fold);
      files := [];
    }

    method Fault() returns (fault: bool)
      ensures steady ==> !fault
    {
      fault := *;
      fault := fault && !steady;
    }

    /** Copies the payload of one file, whatever its reader delivers.  The payload is never more
        than the budget leaves, and success means it has the expected length. */
    method CopyPayload(expected: int, content: Bytes) returns (ok: bool, ghost delivered: Bytes)
      requires files != [] && files[|files| - 1] == []
      requires Payload(files) <= registry.bytes <= MAX_BYTES
      modifies this, registry`bytes
      ensures |files| == |old(files)| && files[..|files| - 1] == old(files)[..|files| - 1]
      ensures Payload(files) <= MAX_BYTES
      ensures old(registry.bytes) <= registry.bytes <= MAX_BYTES
      ensures ok ==> registry.bytes == old(registry.bytes) + |files[|files| - 1]| && files[|files| - 1] == delivered
      ensures ok && expected >= 0 ==> |files[|files| - 1]| == expected
      ensures steady && ok ==> delivered == content
      ensures steady && |content| == expected && old(registry.bytes) + expected <= MAX_BYTES ==> ok
    {
      hide Payload;
      var written := 0;
      ghost var done := files[..|files| - 1];
      var last: Bytes := [];
      delivered := [];
      assert files == done + [last];
      LastReplaced(done, last, last);
      var more := true;
      while more
        invariant files == done + [last] && written == |last| && last == delivered
        invariant registry.bytes == old(registry.bytes) + written <= MAX_BYTES
        invariant Payload(files) <= registry.bytes
        invariant Payload(done) <= old(registry.bytes)
        invariant steady ==> delivered <= content && (!more ==> delivered == content)
        decreases more, MAX_BYTES - registry.bytes
      {
        var cancelled := Fault();
        if cancelled {
          return false, delivered;
        }
        var chunk, status := ReadOn(steady, content, written, COPY_BUFFER);
        delivered := delivered + chunk;
        if |chunk| > 0 {
          if registry.bytes > MAX_BYTES - |chunk| {
            return false, delivered;
          }
          var short := Fault();
          if short {
            var count: nat :| count <= |chunk|;
            LastReplaced(done, last, last + chunk[..count]);
            files := files[..|files| - 1] + [last + chunk[..count]];
            return false, delivered;
          }
          LastReplaced(done, last, last + chunk);
          last := last + chunk;
          files := files[..|files| - 1] + [last];
          registry.bytes := registry.bytes + |chunk|;
          written := written + |chunk|;
        }
        if status == Error || (status == More && |chunk| == 0) {
          return false, delivered;
        }
        more := status == More;
      }
      return expected < 0 || written == expected, delivered;
    }

    /** Writes one file whose declared size the registry has already counted. */
    method WriteFile(size: int, content: Bytes) returns (ok: bool)
      requires 0 <= size && Payload(files) <= registry.bytes - size && registry.bytes <= MAX_BYTES
      modifies this, registry`bytes
      ensures Payload(files) <= MAX_BYTES
      ensures ok ==> |files| == |old(files)| + 1 && files[..|files| - 1] == old(files) && |files[|files| - 1]| == size
      ensures ok ==> registry.bytes == old(registry.bytes) && Payload(files) == old(Payload(files)) + size
      ensures steady ==> (ok <==> |content| == size)
      ensures steady && ok ==> files == old(files) + [content]
    {
      var blocked := Fault();
      if blocked {
        return false;
      }
      PayloadOfLast(files, []);
      files := files + [[]];
      ghost var before := files[..|files| - 1];
      assert before == old(files);
      registry.bytes := registry.bytes - size;
      ghost var delivered;
      ok, delivered := CopyPayload(size, content);
      assert files == files[..|files| - 1] + [files[|files| - 1]];
      PayloadOfLast(files[..|files| - 1], files[|files| - 1]);
    }

    /** What an extraction promises about its stage. */
    ghost predicate Complete()
      reads this, registry
    {
      registry.Valid() && Matches(registry.added, files)
    }

    /** Extracts a TAR archive, entry by entry.  Any archive comes to an end, and without faults
        exactly the extractable ones succeed, with exactly their contents. */
    method ExtractTAR(members: seq<Member>) returns (ok: bool)
      requires Complete() && registry.added == []
      modifies this, registry
      ensures Payload(files) <= MAX_BYTES
      ensures ok ==> Complete() && HasTop(registry.added)
      ensures steady ==> (ok <==> Extractable(TAR, registry.fold, leafOk, members))
      ensures steady && ok ==> files == Contents(members)
    {
      hide Extractable, HasTop, StandsFor, Contents, Acceptable, Tracks, TopsOf, Matches, FileBytes, Payload, Delivered;
      EmptyStage();
      NothingDescribed(TAR, leafOk, members);
      var read := 0;
      var more := true;
      while more
        invariant Complete() && Payload(files) == registry.bytes
        invariant 0 <= read && (steady ==> read <= |members| && (!more ==> read == |members|))
        invariant steady ==> Taken(TAR, members[..read])
        decreases more, MAX_ENTRIES - registry.entries
      {
        registry.Bounds();
        var failed := Fault();
        var next: Option<Member> := *;
        if steady {
          next := if read < |members| then Some(members[read]) else None;
        }
        if failed {
          return false;
        }
        if next.Some? {
          ghost var before, entries := files, registry.added;
          ok := ExtractEntry(next.value);
          if !ok {
            if steady && Extractable(TAR, registry.fold, leafOk, members) {
              NextIsAcceptable(TAR, registry.fold, leafOk, members, read, entries);
            }
            return false;
          }
          if steady {
            OneMoreDescribed(TAR, leafOk, members, read, entries, registry.added[|entries|]);
            OneMoreDelivered(members, read);
          }
          read := read + 1;
        } else {
          more := false;
        }
      }
      registry.Bounds();
      TopsOfEntries(registry.fold, registry.tops, registry.added);
      if steady {
        assert members[..read] == members;
        AllIsExtractable(TAR, registry.fold, leafOk, members, registry.added);
      }
      if registry.tops == map[] {
        return false;
      }
      var unfinished := Fault();
      return !unfinished;
    }

    /** The stage and the registry hold exactly these members. */
    ghost predicate Taken(format: Format, members: seq<Member>)
      reads this, registry
    {
      Describe(format, leafOk, members, registry.added) && Delivered(members) && files == Contents(members)
    }

    method ExtractEntry(member: Member) returns (ok: bool)
      requires Complete() && Payload(files) == registry.bytes
      modifies this, registry
      ensures Payload(files) <= MAX_BYTES
      ensures ok ==> Complete() && Payload(files) == registry.bytes && registry.entries == old(registry.entries) + 1
      ensures ok ==>
                && |registry.added| == |old(registry.added)| + 1 && registry.added == old(registry.added) + [registry.added[|old(registry.added)|]]
                && StandsFor(TAR, leafOk, member.header, registry.added[|old(registry.added)|])
      ensures steady ==>
                (ok <==>
                   && (exists e :: StandsFor(TAR, leafOk, member.header, e) && Acceptable(registry.fold, old(registry.added) + [e]))
                   && (member.header.kind == Plain ==> |member.content| == member.header.size))
      ensures steady && ok ==> files == old(files) + if member.header.kind == Plain then [member.content] else []
    {
      hide Acceptable, Tracks, TopsOf, Matches, FileBytes, Payload, Names;
      registry.Bounds();
      var header := member.header;
      if header.kind == Other || |header.name| > 4096 {
        return false;
      }
      ghost var entries, before := registry.added, files;
      var directory := header.kind == Folder;
      if directory && (header.name == "." || header.name == "./") {
        RootEntry(registry.fold, leafOk, header, entries);
        ok := registry.AddRoot(header.size);
        if ok {
          EntryCounts(entries, registry.added);
          OneMoreMatches(registry.added, |entries|, before, files);
        }
        return;
      }
      EntryByName(TAR, registry.fold, leafOk, header, entries);
      var refusal := registry.Add(leafOk, WithoutDots(header.name), directory, header.size);
      var blocked := Fault();
      if refusal.Some? || blocked {
        return false;
      }
      registry.Bounds();
      EntryCounts(entries, registry.added);
      ok := true;
      if !directory {
        ok := WriteFile(header.size, member.content);
      }
      if ok {
        OneMoreMatches(registry.added, |entries|, before, files);
      }
    }

    /** Extracts a ZIP archive: every entry of its directory is registered first, with the sizes
        it declares as unsigned 64-bit numbers, and then the files are written. */
    method ExtractZIP(members: seq<Member>) returns (ok: bool)
      requires Complete() && registry.added == []
      requires forall i :: 0 <= i < |members| ==> 0 <= members[i].header.size < TWO_TO_64
      modifies this, registry
      ensures Payload(files) <= MAX_BYTES
      ensures ok ==> Complete() && Describe(ZIP, leafOk, members, registry.added)
      ensures ok ==> forall i :: 0 <= i < |members| ==> registry.added[i].size == members[i].header.size
      ensures steady ==> (ok <==> Extractable(ZIP, registry.fold, leafOk, members))
      ensures steady && ok ==> files == Contents(members)
    {
      hide Extractable, Acceptable, Tracks, TopsOf, Contents, StandsFor, Delivered;
      EmptyStage();
      EmptyIsNotExtractable(ZIP, registry.fold, leafOk);
      ok := members != [];
      if ok {
        ok := RegisterAll(members);
      }
      if ok {
        forall i | 0 <= i < |members|
          ensures registry.added[i].size == members[i].header.size
        {
          NextOfZIP(registry.fold, leafOk, members, registry.added, i);
        }
        ok := WriteAll(members);
      }
    }

    method RegisterAll(members: seq<Member>) returns (ok: bool)
      requires Complete() && registry.added == [] && files == []
      requires forall i :: 0 <= i < |members| ==> 0 <= members[i].header.size < TWO_TO_64
      modifies registry
      ensures ok ==> registry.Valid() && Describe(ZIP, leafOk, members, registry.added)
      ensures steady && !ok ==> !Extractable(ZIP, registry.fold, leafOk, members)
    {
      hide Acceptable, Tracks, TopsOf, FileBytes, Names, Extractable;
      for index := 0 to |members|
        invariant registry.Valid() && Describe(ZIP, leafOk, members[..index], registry.added)
      {
        var header := members[index].header;
        ghost var entries := registry.added;
        if Extractable(ZIP, registry.fold, leafOk, members) {
          NextIsAcceptable(ZIP, registry.fold, leafOk, members, index, entries);
        }
        var encrypted := Fault();
        if encrypted || header.kind == Other {
          return false;
        }
        var size := Int64Of(header.size);
        if Uint64Of(size) != header.size {
          assert false;
          return false;
        }
        EntryByName(ZIP, registry.fold, leafOk, header, entries);
        var refusal := registry.Add(leafOk, header.name, header.kind == Folder, size);
        if refusal.Some? {
          return false;
        }
        OneMoreDescribed(ZIP, leafOk, members, index, entries, registry.added[index]);
        assert registry.added == entries + [registry.added[index]];
      }
      assert members[..|members|] == members;
      return true;
    }

    /** Writes one member, which the registry has counted as the entry `e`. */
    method WriteMember(member: Member, ghost e: Entry) returns (ok: bool)
      requires member.header.kind != Other && e.directory == (member.header.kind == Folder) && e.size == member.header.size >= 0
      requires Payload(files) + BytesOf(e) <= registry.bytes <= MAX_BYTES
      modifies this, registry`bytes
      ensures Payload(files) <= MAX_BYTES
      ensures ok ==> registry.bytes == old(registry.bytes) && Payload(files) == old(Payload(files)) + BytesOf(e)
      ensures ok ==>
                if e.directory then files == old(files)
                else |files| == |old(files)| + 1 && files[..|old(files)|] == old(files) && |files[|old(files)|]| == e.size
      ensures steady ==> (ok <==> (member.header.kind == Plain ==> |member.content| == member.header.size))
      ensures steady && ok ==> files == old(files) + if member.header.kind == Plain then [member.content] else []
    {
      hide Payload;
      var failed := Fault();
      if failed {
        return false;
      }
      ok := true;
      if member.header.kind != Folder {
        ok := WriteFile(member.header.size, member.content);
      }
    }

    method WriteAll(members: seq<Member>) returns (ok: bool)
      requires registry.Valid() && files == [] && members != []
      requires forall i :: 0 <= i < |members| ==> 0 <= members[i].header.size < TWO_TO_64
      requires Describe(ZIP, leafOk, members, registry.added)
      modifies this, registry`bytes
      ensures Payload(files) <= MAX_BYTES
      ensures ok ==> Complete()
      ensures steady ==> (ok <==> Extractable(ZIP, registry.fold, leafOk, members))
      ensures steady && ok ==> files == Contents(members)
    {
      hide Acceptable, Tracks, TopsOf, FileBytes, Payload, Matches, Contents, Describe, Extractable, Delivered, BytesOf, StageIs;
      registry.Bounds();
      ghost var fold, entries := registry.fold, registry.added;
      StageStarts(steady, leafOk, members, entries);
      DeliveredIsExtractable(fold, leafOk, members, entries);
      for index := 0 to |members|
        invariant registry.bytes == FileBytes(entries) && StageIs(steady, members, entries, index, files)
      {
        StageHasRoom(steady, fold, leafOk, members, entries, index, files);
        ghost var before := files;
        ok := WriteMember(members[index], entries[index]);
        if !ok {
          NotDelivered(members, index);
          return;
        }
        StageGrows(steady, fold, leafOk, members, entries, index, before, files);
      }
      StageIsWhole(steady, members, entries, files);
      return true;
    }
  }

  /** The stage holds the first `n` members. */
  predicate StageIs(steady: bool, members: seq<Member>, entries: seq<Entry>, n: int, files: seq<Bytes>) {
    && 0 <= n <= |members| == |entries|
    && Payload(files) == FileBytes(entries[..n]) && Matches(entries[..n], files)
    && (steady ==> Delivered(members[..n]) && files == Contents(members[..n]))
  }

  lemma StageStarts(steady: bool, leafOk: string -> bool, members: seq<Member>, entries: seq<Entry>)
    requires Describe(ZIP, leafOk, members, entries)
    ensures StageIs(steady, members, entries, 0, [])
  {
    EmptyStage();
    assert entries[..0] == [] && members[..0] == [];
  }

  lemma StageIsWhole(steady: bool, members: seq<Member>, entries: seq<Entry>, files: seq<Bytes>)
    requires StageIs(steady, members, entries, |members|, files)
    ensures Payload(files) == FileBytes(entries) && Matches(entries, files)
    ensures steady ==> Delivered(members) && files == Contents(members)
  {
    assert entries[..|members|] == entries && members[..|members|] == members;
  }

  lemma StageHasRoom(steady: bool, fold: string -> string, leafOk: string -> bool, members: seq<Member>, entries: seq<Entry>, n: nat, files: seq<Bytes>)
    requires StageIs(steady, members, entries, n, files) && n < |members|
    requires Describe(ZIP, leafOk, members, entries) && Acceptable(fold, entries) && 0 <= members[n].header.size < TWO_TO_64
    ensures
      var h, e := members[n].header, entries[n];
      && h.kind != Other && e.directory == (h.kind == Folder) && e.size == h.size
      && Payload(files) + BytesOf(e) <= FileBytes(entries) <= MAX_BYTES
  {
    hide Acceptable, Describe, Matches, Delivered, Contents;
    PrefixGrows(fold, entries, n);
    NextOfZIP(fold, leafOk, members, entries, n);
  }

  lemma StageGrows(steady: bool, fold: string -> string, leafOk: string -> bool, members: seq<Member>, entries: seq<Entry>, n: nat,
                   before: seq<Bytes>, files: seq<Bytes>)
    requires StageIs(steady, members, entries, n, before) && n < |members|
    requires Describe(ZIP, leafOk, members, entries) && Acceptable(fold, entries) && 0 <= members[n].header.size < TWO_TO_64
    requires Payload(files) == Payload(before) + BytesOf(entries[n])
    requires
      if entries[n].directory then files == before
      else |files| == |before| + 1 && files[..|before|] == before && |files[|before|]| == entries[n].size
    requires steady ==> files == before + if members[n].header.kind == Plain then [members[n].content] else []
    ensures StageIs(steady, members, entries, n + 1, files)
  {
    hide Acceptable, Describe, Matches, Delivered, Contents, Payload, FileBytes;
    PrefixGrows(fold, entries, n);
    NextOfZIP(fold, leafOk, members, entries, n);
    OneMoreMatches(entries, n, before, files);
    if steady {
      OneMoreDelivered(members, n);
    }
  }

  lemma NothingDescribed(format: Format, leafOk: string -> bool, members: seq<Member>)
    ensures Describe(format, leafOk, members[..0], []) && Delivered(members[..0]) && Contents(members[..0]) == []
  {
  }

  lemma EmptyIsNotExtractable(format: Format, fold: string -> string, leafOk: string -> bool)
    ensures !Extractable(format, fold, leafOk, [])
  {
  }

  /** What the directory of a ZIP archive says of its next member. */
  lemma NextOfZIP(fold: string -> string, leafOk: string -> bool, members: seq<Member>, entries: seq<Entry>, n: nat)
    requires Describe(ZIP, leafOk, members, entries) && Acceptable(fold, entries) && n < |members|
    requires 0 <= members[n].header.size < TWO_TO_64
    ensures entries[n].directory == (members[n].header.kind == Folder) && entries[n].size == members[n].header.size
    ensures members[n].header.kind != Other && entries[n].path != []
    ensures Contents(members[..n + 1]) == Contents(members[..n]) + if members[n].header.kind == Plain then [members[n].content] else []
  {
    hide OneSpelling, AllCompatible, Names;
    assert StandsFor(ZIP, leafOk, members[n].header, entries[n]) && Sane(entries[n]);
    assert Names(leafOk, members[n].header.name, entries[n].path);
    NamesAreNotEmpty(leafOk, members[n].header.name, entries[n].path);
    assert members[..n + 1][..n] == members[..n];
  }

  lemma NamesAreNotEmpty(leafOk: string -> bool, raw: string, path: seq<string>)
    requires Names(leafOk, raw, path)
    ensures path != []
  {
  }

  lemma DeliveredIsExtractable(fold: string -> string, leafOk: string -> bool, members: seq<Member>, entries: seq<Entry>)
    requires Describe(ZIP, leafOk, members, entries) && Acceptable(fold, entries) && members != []
    requires 0 <= members[0].header.size < TWO_TO_64
    ensures Extractable(ZIP, fold, leafOk, members) <==> Delivered(members)
  {
    hide Acceptable, StandsFor, Delivered, Contents;
    NextOfZIP(fold, leafOk, members, entries, 0);
    assert HasTop(entries);
  }

  lemma NotDelivered(members: seq<Member>, n: nat)
    requires n < |members|
    ensures members[n].header.kind == Plain && |members[n].content| != members[n].header.size ==> !Delivered(members)
  {
  }

  lemma OneMoreDelivered(members: seq<Member>, n: nat)
    requires n < |members| && Delivered(members[..n])
    requires members[n].header.kind == Plain ==> |members[n].content| == members[n].header.size
    ensures Delivered(members[..n + 1])
  {
    assert forall i :: 0 <= i < n ==> members[..n + 1][i] == members[..n][i];
  }

  /** Nothing but roots leaves no top name. */
  lemma TopsOfEntries(fold: string -> string, tops: map<string, string>, entries: seq<Entry>)
    requires TopsOf(fold, tops, entries)
    ensures HasTop(entries) <==> tops != map[]
  {
    if tops != map[] {
      var k :| k in tops;
      var i :| 0 <= i < |entries| && Needs(entries[i], [tops[k]]);
    }
  }

  lemma {:induction false} PrefixIsLess(entries: seq<Entry>, n: nat)
    requires n <= |entries| && forall i :: 0 <= i < |entries| ==> Sane(entries[i])
    ensures FileBytes(entries[..n]) <= FileBytes(entries)
    decreases |entries|
  {
    if n == |entries| {
      assert entries[..n] == entries;
    } else {
      var shorter := entries[..|entries| - 1];
      PrefixIsLess(shorter, n);
      assert shorter[..n] == entries[..n] && Sane(entries[|entries| - 1]);
    }
  }

  lemma EmptyStage()
    ensures FileBytes([]) == 0 && Payload([]) == 0 && Matches([], [])
    ensures forall files :: Matches([], files) ==> files == []
  {
  }

  lemma EntryCounts(entries: seq<Entry>, more: seq<Entry>)
    requires |more| == |entries| + 1 && more[..|entries|] == entries
    ensures FileBytes(more) == FileBytes(entries) + BytesOf(more[|entries|])
    ensures more[..|entries| + 1] == more
  {
  }

  lemma OneMoreMatches(entries: seq<Entry>, n: nat, before: seq<Bytes>, files: seq<Bytes>)
    requires n < |entries| && Matches(entries[..n], before)
    requires
      if entries[n].directory then files == before
      else |files| == |before| + 1 && files[..|before|] == before && |files[|before|]| == entries[n].size
    ensures Matches(entries[..n + 1], files)
  {
    assert entries[..n + 1][..n] == entries[..n];
    assert forall i :: 0 <= i < |before| ==> files[i] == files[..|before|][i];
  }

  lemma PrefixGrows(fold: string -> string, entries: seq<Entry>, n: nat)
    requires Acceptable(fold, entries) && n < |entries|
    ensures FileBytes(entries[..n + 1]) == FileBytes(entries[..n]) + BytesOf(entries[n])
    ensures 0 <= entries[n].size && FileBytes(entries[..n + 1]) <= FileBytes(entries) <= MAX_BYTES
    ensures Sizes(entries[..n + 1]) == Sizes(entries[..n]) + if entries[n].directory then [] else [entries[n].size]
  {
    hide OneSpelling, AllCompatible;
    assert entries[..n + 1][..n] == entries[..n] && Sane(entries[n]);
    PrefixIsLess(entries, n + 1);
  }
}
