/** Reservations over all uploads: creation, progress and expiry (upload_store.go:332-415,
    603-641, 696-720). */
module UploadQuota {
  import opened Basics
  import opened UploadParts
  import opened UploadProtocol

  /** An upload that still reserves its size. */
  predicate Open(m: Manifest) {
    !Terminal(m.state)
  }

  function Reserved(m: Manifest): nat {
    if Open(m) then m.size else 0
  }

  function Counted(m: Manifest): nat {
    if Open(m) then 1 else 0
  }

  ghost function Total(ms: map<string, Manifest>, weight: Manifest -> nat): nat
    decreases |ms.Keys|
  {
    if ms.Keys == {} then 0
    else
      var id :| id in ms.Keys;
      weight(ms[id]) + Total(ms - {id}, weight)
  }

  lemma {:induction false} TotalWithout(ms: map<string, Manifest>, weight: Manifest -> nat, id: string)
    requires id in ms
    ensures Total(ms, weight) == weight(ms[id]) + Total(ms - {id}, weight)
    decreases |ms.Keys|
  {
    var first :| first in ms.Keys && Total(ms, weight) == weight(ms[first]) + Total(ms - {first}, weight);
    if first != id {
      assert ms - {first} - {id} == ms - {id} - {first};
      TotalWithout(ms - {first}, weight, id);
      TotalWithout(ms - {id}, weight, first);
    }
  }

  /** How many uploads are open. */
  ghost function OpenCount(ms: map<string, Manifest>): nat {
    Total(ms, Counted)
  }

  /** The bytes reserved by all open uploads. */
  ghost function PendingBytes(ms: map<string, Manifest>): nat {
    Total(ms, Reserved)
  }

  ghost predicate WithinQuota(c: Config, ms: map<string, Manifest>) {
    OpenCount(ms) <= c.maxActive && PendingBytes(ms) <= c.maxPendingBytes
  }

  lemma Without(ms: map<string, Manifest>, id: string)
    requires id in ms
    ensures OpenCount(ms) == Counted(ms[id]) + OpenCount(ms - {id})
    ensures PendingBytes(ms) == Reserved(ms[id]) + PendingBytes(ms - {id})
  {
    TotalWithout(ms, Counted, id);
    TotalWithout(ms, Reserved, id);
  }

  /** How a manifest may change after creation, by any operation and any crash. */
  predicate Progresses(m: Manifest, next: Manifest) {
    SameUpload(m, next) && (Terminal(m.state) ==> next == m)
  }

  /** Every legal run of one upload's disk steps is such progress. */
  lemma RunsProgress(c: Config, t: Transfer, steps: seq<Step>)
    requires Legal(c, t, steps)
    ensures Progresses(t.manifest, Replay(c, t, steps).manifest)
  {
    UploadIsFixed(c, t, steps);
    if Terminal(t.manifest.state) {
      TerminalIsAbsorbing(c, t, steps);
    }
  }

  lemma ProgressKeepsQuota(c: Config, ms: map<string, Manifest>, id: string, next: Manifest)
    requires WithinQuota(c, ms) && id in ms && Progresses(ms[id], next)
    ensures WithinQuota(c, ms[id := next])
  {
    Without(ms, id);
    Without(ms[id := next], id);
    assert ms[id := next] - {id} == ms - {id};
  }

  lemma RemovalKeepsQuota(c: Config, ms: map<string, Manifest>, id: string)
    requires WithinQuota(c, ms) && id in ms
    ensures WithinQuota(c, ms - {id})
  {
    Without(ms, id);
  }

  lemma CreationKeepsQuota(c: Config, ms: map<string, Manifest>, id: string, created: Manifest)
    requires id !in ms && Open(created)
    ensures WithinQuota(c, ms[id := created]) <==> OpenCount(ms) < c.maxActive && PendingBytes(ms) + created.size <= c.maxPendingBytes
  {
    Without(ms[id := created], id);
    assert ms[id := created] - {id} == ms;
  }

  function NewManifest(c: Config, id: string, path: string, name: string, size: nat, expected: Option<Digest>, now: nat): Manifest
    requires PartCount(size, c.chunk) >= 0
  {
    Manifest(id, path, name, size, c.chunk, PartCount(size, c.chunk), expected, map[], Active,
             now, now + c.inactivityTTL, None, None, None, None)
  }

  lemma NewManifestIsValid(c: Config, id: string, path: string, name: string, size: nat, expected: Option<Digest>, now: nat)
    requires ValidConfig(c) && ValidId(id) && ValidName(name)
    requires size <= c.maxFileBytes && PartCount(size, c.chunk) <= c.maxParts
    ensures PartCount(size, c.chunk) >= 1 && ValidManifest(c, NewManifest(c, id, path, name, size, expected, now))
  {
    if size > 0 {
      PartCountIsCeiling(size, c.chunk);
    }
  }

  /** A new upload is where every run of its disk steps starts. */
  lemma NewUploadIsSafe(c: Config, m: Manifest, directory: map<string, Entry>)
    requires ValidConfig(c) && ValidManifest(c, m) && m.state == Active && m.parts == map[]
    requires StageName(m.id) in directory ==> directory[StageName(m.id)].Regular?
    ensures Safe(c, Transfer(m, map[], map[], directory, false))
    ensures m.name !in directory ==> Published(Transfer(m, map[], map[], directory, false))
  {
  }

  /** Sixteen to 128 letters, digits, hyphens and underscores. */
  predicate IsPlainId(id: string) {
    && 16 <= |id| <= 128
    && forall i :: 0 <= i < |id| ==>
         97 <= id[i] as int <= 122 || 65 <= id[i] as int <= 90 || 48 <= id[i] as int <= 57 || id[i] as int == 45 || id[i] as int == 95
  }

  /** One component of a path that is not reserved for stages. */
  predicate IsPlainName(name: string) {
    && name != "" && (forall i :: 0 <= i < |name| ==> name[i] != '/')
    && (|name| < 19 || name[..19] != ".fileharbor-upload-")
  }

  lemma PlainIds(id: string)
    ensures IsPlainId(id) <==> ValidId(id)
  {
  }

  lemma PlainNames(name: string)
    ensures IsPlainName(name) <==> ValidName(name)
  {
    assert |STAGE_PREFIX| == 19;
    assert ('/' !in name) <==> forall i :: 0 <= i < |name| ==> name[i] != '/';
  }

  datatype CreateResult = Created | Existing | NotFound | Conflict | TooLarge | Malformed | Busy | NoSpace | IoFailure

  class UploadIndex {
    const config: Config
    var manifests: map<string, Manifest>

    ghost predicate Valid()
      reads this
    {
      && ValidConfig(config)
      && (forall id :: id in manifests ==> ValidManifest(config, manifests[id]) && manifests[id].id == id)
      && WithinQuota(config, manifests)
    }

    /** A store without uploads. */
    constructor (config: Config)
      requires ValidConfig(config)
      ensures Valid() && manifests == map[] && this.config == config
    {
      this.config, this.manifests := config, map[];
    }

    /** Counts the open uploads and adds up their sizes, in no particular order.  Within quota
        the sum is never given up. */
    method Reservations() returns (active: nat, pending: int)
      requires Valid()
      ensures active == OpenCount(manifests) && pending == PendingBytes(manifests)
    {
      active, pending := 0, 0;
      var rest := manifests;
      while rest != map[]
        invariant forall id :: id in rest ==> id in manifests && rest[id] == manifests[id]
        invariant pending + PendingBytes(rest) == PendingBytes(manifests)
        invariant active + OpenCount(rest) == OpenCount(manifests)
        invariant pending <= config.maxPendingBytes
        decreases rest.Keys
      {
        var id :| id in rest;
        Without(rest, id);
        if rest[id].state == Active || rest[id].state == Finalizing {
          active := active + 1;
          if pending > config.maxPendingBytes - rest[id].size {
            return active, config.maxPendingBytes + 1;
          }
          pending := pending + rest[id].size;
        }
        rest := rest - {id};
      }
    }

    /** `now` is within what remains of `before`. */
    static ghost predicate Unexpired(before: map<string, Manifest>, after: map<string, Manifest>, id: string, now: nat) {
      && (id in after <==> id in before && now < before[id].expiresAt)
      && (id in after ==> after[id] == before[id])
    }

    /** An upload with this identifier has not expired. */
    static predicate Taken(ms: map<string, Manifest>, id: string, now: nat) {
      id in ms && now < ms[id].expiresAt
    }

    static predicate SameRequest(m: Manifest, path: string, name: string, size: int, expected: Option<Digest>) {
      m.path == path && m.name == name && m.size == size && m.expected == expected
    }

    /** Removes every expired upload. */
    method ReapExpired(now: nat)
      requires Valid()
      modifies this
      ensures Valid()
      ensures forall id :: Unexpired(old(manifests), manifests, id, now)
    {
      hide WithinQuota, ValidManifest;
      var rest := manifests.Keys;
      while rest != {}
        invariant Valid()
        invariant rest <= manifests.Keys
        invariant forall id :: id in rest ==> id in old(manifests) && manifests[id] == old(manifests)[id]
        invariant forall id :: id !in rest ==> Unexpired(old(manifests), manifests, id, now)
        decreases rest
      {
        var id :| id in rest;
        if now >= manifests[id].expiresAt {
          RemovalKeepsQuota(config, manifests, id);
          manifests := manifests - {id};
        }
        rest := rest - {id};
      }
    }

    /** One operation on one upload, whatever it did and wherever it stopped. */
    method Progress(id: string, next: Manifest)
      requires Valid() && id in manifests
      requires ValidManifest(config, next) && Progresses(manifests[id], next)
      modifies this
      ensures Valid() && manifests == old(manifests)[id := next]
    {
      ProgressKeepsQuota(config, manifests, id, next);
      manifests := manifests[id := next];
    }

    method Add(created: Manifest)
      requires Valid() && created.id !in manifests && ValidManifest(config, created) && Open(created)
      requires OpenCount(manifests) < config.maxActive && PendingBytes(manifests) <= config.maxPendingBytes - created.size
      modifies this
      ensures Valid() && manifests == old(manifests)[created.id := created]
    {
      CreationKeepsQuota(config, manifests, created.id, created);
      manifests := manifests[created.id := created];
    }

    /** The request is within the limits. */
    predicate Creatable(id: string, name: string, size: int)
      requires ValidConfig(config)
      reads this
    {
      IsPlainId(id) && 0 <= size <= config.maxFileBytes && IsPlainName(name) && PartCount(size, config.chunk) <= config.maxParts
    }

    /** The upload is as requested, without parts, and lives for the inactivity time. */
    predicate IsNew(m: Manifest, id: string, path: string, name: string, size: int, expected: Option<Digest>, now: nat)
      reads this
    {
      && m.id == id && SameRequest(m, path, name, size, expected)
      && m.chunk == config.chunk && m.partCount == PartCount(size, config.chunk)
      && m.state == Active && m.parts == map[] && m.updatedAt == now && m.expiresAt == now + config.inactivityTTL
      && m.completedAt.None? && m.finalDigest.None? && m.finalPath.None? && m.stageName.None?
    }

    method CheckRequest(id: string, name: string, size: int) returns (refusal: Option<CreateResult>)
      requires ValidConfig(config)
      ensures refusal.None? <==> Creatable(id, name, size)
      ensures refusal == Some(NotFound) <==> !IsPlainId(id)
      ensures refusal == Some(Malformed) <==> IsPlainId(id) && 0 <= size <= config.maxFileBytes && !IsPlainName(name)
      ensures refusal in {None, Some(NotFound), Some(Malformed), Some(TooLarge)}
      ensures refusal.None? ==> ValidId(id) && ValidName(name)
    {
      PlainIds(id);
      PlainNames(name);
      hide IsPlainId, IsPlainName, ValidId, ValidName;
      if !ValidId(id) {
        return Some(NotFound);
      }
      if size < 0 || size > config.maxFileBytes {
        return Some(TooLarge);
      }
      if !ValidName(name) {
        return Some(Malformed);
      }
      return if PartCount(size, config.chunk) > config.maxParts then Some(TooLarge) else None;
    }

    /** Adds an upload, if the quotas and the disk have room for it. */
    method CreateNew(id: string, path: string, name: string, size: int, expected: Option<Digest>,
                     now: nat, enoughSpace: bool, saved: bool) returns (r: CreateResult)
      requires Valid() && Creatable(id, name, size) && ValidId(id) && ValidName(name) && id !in manifests
      modifies this
      ensures Valid()
      ensures r == if OpenCount(old(manifests)) >= config.maxActive || PendingBytes(old(manifests)) + size > config.maxPendingBytes then Busy
                   else if !enoughSpace then NoSpace else if !saved then IoFailure else Created
      ensures r != Created ==> manifests == old(manifests)
      ensures r == Created ==>
                id in manifests && manifests == old(manifests)[id := manifests[id]] && IsNew(manifests[id], id, path, name, size, expected, now)
    {
      hide WithinQuota, ValidManifest, OpenCount, PendingBytes, IsPlainId, IsPlainName, ValidId, ValidName;
      var active, pending := Reservations();
      if active >= config.maxActive || pending > config.maxPendingBytes - size {
        return Busy;
      }
      if !enoughSpace {
        return NoSpace;
      }
      if !saved {
        return IoFailure;
      }
      NewManifestIsValid(config, id, path, name, size, expected, now);
      Add(NewManifest(config, id, path, name, size, expected, now));
      return Created;
    }

    /** Creates an upload, or finds the same request already created. */
    method Create(id: string, path: string, name: string, size: int, expected: Option<Digest>,
                  now: nat, authorized: bool, enoughSpace: bool, saved: bool) returns (r: CreateResult)
      requires Valid()
      modifies this
      ensures Valid()
      ensures r == Created ==>
                && Creatable(id, name, size) && !Taken(old(manifests), id, now)
                && id in manifests && IsNew(manifests[id], id, path, name, size, expected, now)
      ensures !Creatable(id, name, size) ==> manifests == old(manifests)
      ensures !Creatable(id, name, size) ==>
                r == if !IsPlainId(id) then NotFound
                     else if 0 <= size <= config.maxFileBytes && !IsPlainName(name) then Malformed else TooLarge
      ensures Creatable(id, name, size) && Taken(old(manifests), id, now) ==>
                r == if !authorized then NotFound
                     else if SameRequest(old(manifests)[id], path, name, size, expected) then Existing else Conflict
      ensures Creatable(id, name, size) && !Taken(old(manifests), id, now) ==>
                && r in {Created, Busy, NoSpace, IoFailure}
                && (enoughSpace && saved ==> r == Created || r == Busy)
                && (r == NoSpace ==> !enoughSpace) && (r == IoFailure ==> enoughSpace && !saved)
      ensures r == Busy ==> OpenCount(manifests) >= config.maxActive || PendingBytes(manifests) + size > config.maxPendingBytes
      ensures Creatable(id, name, size) ==> forall other :: other != id || r != Created ==> Unexpired(old(manifests), manifests, other, now)
    {
      hide WithinQuota, ValidManifest, OpenCount, PendingBytes, IsPlainId, IsPlainName, ValidId, ValidName, PartCount;
      var refusal := CheckRequest(id, name, size);
      if refusal.Some? {
        return refusal.value;
      }
      ReapExpired(now);
      assert Unexpired(old(manifests), manifests, id, now);
      if id in manifests {
        var m := manifests[id];
        if !authorized {
          return NotFound;
        }
        return if m.path == path && m.name == name && m.size == size && m.expected == expected then Existing else Conflict;
      }
      ghost var reaped := manifests;
      r := CreateNew(id, path, name, size, expected, now, enoughSpace, saved);
      assert forall other :: Unexpired(old(manifests), reaped, other, now) && other != id ==> Unexpired(old(manifests), manifests, other, now);
    }
  }
}
