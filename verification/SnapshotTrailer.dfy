/** The snapshot stream written to a file and hashed on the way past, a window behind
    (plugins/etcd/snapshot.go: trailerHasher, writeSnapshot). The digest itself is a
    parameter: any function of a byte sequence. */
module SnapshotTrailer {
  import opened Common

  type Bytes = seq<Byte>

  type Path = string

  const TRAILER := 32
  const PAGE := 512

  // ----- what the window holds ---------------------------------------------------------------

  /** The bytes given to the hash and the ones held back. */
  datatype Window = Window(hashed: Bytes, tail: Bytes)

  function Push(w: Window, p: Bytes): Window {
    var all := w.tail + p;
    if |all| > TRAILER then Window(w.hashed + all[..|all| - TRAILER], all[|all| - TRAILER..])
    else Window(w.hashed, all)
  }

  function PushAll(chunks: seq<Bytes>): Window {
    if chunks == [] then Window([], []) else Push(PushAll(chunks[..|chunks| - 1]), chunks[|chunks| - 1])
  }

  function Concat(chunks: seq<Bytes>): Bytes {
    if chunks == [] then [] else Concat(chunks[..|chunks| - 1]) + chunks[|chunks| - 1]
  }

  /** Everything but the last 32 bytes, and those. */
  function WindowOf(stream: Bytes): Window {
    if |stream| <= TRAILER then Window([], stream)
    else Window(stream[..|stream| - TRAILER], stream[|stream| - TRAILER..])
  }

  lemma PushKeeps(stream: Bytes, p: Bytes)
    ensures Push(WindowOf(stream), p) == WindowOf(stream + p)
  {
    var w := WindowOf(stream);
    assert w.hashed + w.tail == stream;
    assert w.hashed + (w.tail + p) == stream + p;
    var all := w.tail + p;
    if |all| > TRAILER {
      assert all[..|all| - TRAILER] + all[|all| - TRAILER..] == all;
    }
  }

  /** However a stream is cut into writes, the window ends up the same. */
  lemma {:induction false} ChunkingDoesNotMatter(chunks: seq<Bytes>)
    ensures PushAll(chunks) == WindowOf(Concat(chunks))
  {
    if chunks != [] {
      var n := |chunks| - 1;
      ChunkingDoesNotMatter(chunks[..n]);
      PushKeeps(Concat(chunks[..n]), chunks[n]);
    }
  }

  // ----- what is said of the stream ---------------------------------------------------------------

  datatype Verdict = NoDigest | Corrupt | Match(digest: Bytes)

  /** What verify says, from what it kept. */
  function Verified(sha: Bytes -> Bytes, n: nat, w: Window): Verdict {
    if n % PAGE != TRAILER then NoDigest
    else if w.tail != sha(w.hashed) then Corrupt
    else Match(sha(w.hashed))
  }

  function VerdictOn(sha: Bytes -> Bytes, stream: Bytes): Verdict {
    Verified(sha, |stream|, WindowOf(stream))
  }

  /** A match is said of whole pages followed by their digest, and of nothing else. */
  lemma MatchExactlyWhen(sha: Bytes -> Bytes, stream: Bytes)
    requires forall x :: |sha(x)| == TRAILER
    ensures VerdictOn(sha, stream).Match? <==>
              exists database: Bytes :: |database| % PAGE == 0 && stream == database + sha(database)
    ensures VerdictOn(sha, stream).NoDigest? <==> |stream| % PAGE != TRAILER
  {
  }

  /** Of a stream: whole pages and 32 bytes are compared, and a match carries the digest
      that was computed and found there. */
  ghost predicate SaysOf(v: Verdict, sha: Bytes -> Bytes, stream: Bytes) {
    match v
    case NoDigest => |stream| % PAGE != TRAILER
    case Corrupt => |stream| % PAGE == TRAILER && stream[|stream| - TRAILER..] != sha(stream[..|stream| - TRAILER])
    case Match(digest) =>
      |stream| % PAGE == TRAILER && digest == sha(stream[..|stream| - TRAILER]) && stream[|stream| - TRAILER..] == digest
  }

  lemma VerdictSays(sha: Bytes -> Bytes, stream: Bytes, v: Verdict)
    ensures SaysOf(v, sha, stream) <==> v == VerdictOn(sha, stream)
  {
  }

  /** A stream cut short anywhere but a whole number of pages from its end reads as one
      that carried no digest: the check is against damage, not against truncation. */
  lemma CutStreamReadsAsNoDigest(sha: Bytes -> Bytes, database: Bytes, cut: nat)
    requires |sha(database)| == TRAILER && |database| % PAGE == 0
    requires cut <= |database| + TRAILER
    ensures
      var stream := database + sha(database);
      VerdictOn(sha, stream[..|stream| - cut]).NoDigest? <==> cut % PAGE != 0
  {
  }

  // ----- the hasher -----------------------------------------------------------------------------------

  class Disk {
    var files: map<Path, Bytes>

    constructor (files: map<Path, Bytes>)
      ensures this.files == files
    {
      this.files := files;
    }
  }

  class TrailerHasher {
    const disk: Disk
    const path: Path
    const sha: Bytes -> Bytes
    var hashed: Bytes
    var tail: array<Byte>
    var len: nat
    var n: nat

    ghost predicate Valid()
      reads this, disk, tail
    {
      && path in disk.files
      && len <= tail.Length
      && Held() == WindowOf(disk.files[path])
      && n == |disk.files[path]|
    }

    ghost function Held(): Window
      reads this, tail
      requires len <= tail.Length
    {
      Window(hashed, tail[..len])
    }

    constructor (disk: Disk, path: Path, sha: Bytes -> Bytes)
      requires path in disk.files && disk.files[path] == []
      ensures Valid() && this.disk == disk && this.path == path && this.sha == sha && fresh(tail)
    {
      this.disk, this.path, this.sha := disk, path, sha;
      hashed, tail, len, n := [], new Byte[0], 0, 0;
    }

    /** One write, of which the file takes the first `took` bytes. */
    method Write(p: Bytes, took: nat)
      requires Valid() && took <= |p|
      modifies this, disk, tail
      ensures Valid() && (tail == old(tail) || fresh(tail))
      ensures disk.files == old(disk.files)[path := old(disk.files)[path] + p[..took]]
      ensures Held() == Push(old(Held()), p[..took])
    {
      PushKeeps(disk.files[path], p[..took]);
      disk.files := disk.files[path := disk.files[path] + p[..took]];
      if took > 0 {
        n := n + took;
        ghost var before := hashed;
        Append(p[..took]);
        if len > TRAILER {
          var extra := len - TRAILER;
          hashed := hashed + tail[..extra];
          ShiftDown(extra);
        }
      } else {
        assert tail[..len] + p[..took] == tail[..len];
      }
    }

    /** Go's append: in place while the backing array has room, else into a larger one. */
    method Append(p: Bytes)
      requires len <= tail.Length
      modifies this`tail, this`len, tail
      ensures len == old(len) + |p| <= tail.Length && (tail == old(tail) || fresh(tail))
      ensures tail[..len] == old(tail[..len]) + p
    {
      if len + |p| > tail.Length {
        Grow(len + |p|);
      }
      ghost var was := tail[..len];
      var t, at := tail, len;
      for i := 0 to |p|
        modifies t
        invariant t[..at + i] == was + p[..i]
      {
        t[at + i] := p[i];
      }
      len := at + |p|;
    }

    method Grow(room: nat)
      requires len <= tail.Length && len <= room
      modifies this`tail
      ensures fresh(tail) && tail.Length >= room && tail[..len] == old(tail[..len])
    {
      var capacity: nat :| capacity >= room;
      var grown := new Byte[capacity](_ => 0);
      for i := 0 to len
        modifies grown
        invariant forall j | 0 <= j < i :: grown[j] == tail[j]
      {
        grown[i] := tail[i];
      }
      tail := grown;
    }

    /** copy(tail, tail[extra:]), over itself, and the tail cut to what was copied. */
    method ShiftDown(extra: nat)
      requires extra <= len <= tail.Length
      modifies this`len, tail
      ensures len == old(len) - extra && tail[..len] == old(tail[..len])[extra..]
    {
      var keep := len - extra;
      var t := tail;
      for i := 0 to keep
        modifies t
        invariant forall j | 0 <= j < i :: tail[j] == old(tail[j + extra])
        invariant forall j | i <= j < tail.Length :: tail[j] == old(tail[j])
      {
        t[i] := t[i + extra];
      }
      len := keep;
    }

    method Verify() returns (v: Verdict)
      requires Valid()
      ensures v == VerdictOn(sha, disk.files[path]) && SaysOf(v, sha, disk.files[path])
    {
      VerdictSays(sha, disk.files[path], VerdictOn(sha, disk.files[path]));
      if n % PAGE != TRAILER {
        return NoDigest;
      }
      var got := sha(hashed);
      if tail[..len] != got {
        return Corrupt;
      }
      return Match(got);
    }
  }

  // ----- the file ---------------------------------------------------------------------------------------

  /** One read of the stream, and how the write of it went. */
  datatype Transfer = Transfer(data: Bytes, took: nat, fails: bool)

  type Chunk = c: Transfer | c.took <= |c.data| witness Transfer([], 0, false)

  predicate Whole(c: Chunk) {
    !c.fails && c.took == |c.data|
  }

  /** The chunks as far as they are copied: up to and including the first bad one. */
  function Copied(chunks: seq<Chunk>): Bytes
  {
    if chunks == [] then []
    else
      var c := chunks[0];
      c.data[..c.took] + if Whole(c) then Copied(chunks[1..]) else []
  }

  predicate AllWhole(chunks: seq<Chunk>) {
    forall i | 0 <= i < |chunks| :: Whole(chunks[i])
  }

  function Stream(chunks: seq<Chunk>): Bytes {
    if chunks == [] then [] else chunks[0].data + Stream(chunks[1..])
  }

  lemma {:induction false} WholeIsCopied(chunks: seq<Chunk>)
    requires AllWhole(chunks)
    ensures Copied(chunks) == Stream(chunks)
  {
    if chunks != [] {
      assert Whole(chunks[0]);
      WholeIsCopied(chunks[1..]);
    }
  }

  /** What is copied is the stream up to the first bad write, and of that what was taken. */
  lemma {:induction false} CopiedToFirstBad(chunks: seq<Chunk>) returns (k: nat)
    ensures k <= |chunks| && AllWhole(chunks[..k]) && (k == |chunks| <==> AllWhole(chunks))
    ensures k == |chunks| ==> Copied(chunks) == Stream(chunks)
    ensures k < |chunks| ==> !Whole(chunks[k]) && Copied(chunks) == Stream(chunks[..k]) + chunks[k].data[..chunks[k].took]
  {
    k := 0;
    if chunks != [] && Whole(chunks[0]) {
      k := CopiedToFirstBad(chunks[1..]);
      assert chunks[..k + 1][1..] == chunks[1..][..k];
      assert chunks[0].data[..chunks[0].took] == chunks[0].data;
      if k < |chunks| - 1 {
        Associative(chunks[0].data, Stream(chunks[1..][..k]), chunks[k + 1].data[..chunks[k + 1].took]);
      }
      k := k + 1;
    }
  }

  /** io.Copy: a write that fails or falls short ends it with an error, and so does a
      stream that does not end cleanly. */
  method Copy(th: TrailerHasher, chunks: seq<Chunk>, clean: bool) returns (ok: bool)
    requires th.Valid()
    modifies th, th.disk, th.tail
    ensures th.Valid()
    ensures ok <==> clean && AllWhole(chunks)
    ensures th.disk.files == old(th.disk.files)[th.path := old(th.disk.files)[th.path] + Copied(chunks)]
  {
    hide WindowOf, Push, Copied;
    ghost var files := th.disk.files;
    ghost var start := files[th.path];
    ghost var part: Bytes := [];
    assert files[th.path := start + part] == files by {
      assert start + part == start;
    }
    for i := 0 to |chunks|
      invariant th.Valid() && (th.tail == old(th.tail) || fresh(th.tail))
      invariant forall j | 0 <= j < i :: Whole(chunks[j])
      invariant th.disk.files == files[th.path := start + part]
      invariant Copied(chunks) == part + Copied(chunks[i..])
    {
      var c := chunks[i];
      CopiedStep(chunks, i);
      th.Write(c.data, c.took);
      Extended(files, th.path, start, part, c.data[..c.took]);
      Associative(part, c.data[..c.took], if Whole(c) then Copied(chunks[i + 1..]) else []);
      part := part + c.data[..c.took];
      if c.fails || c.took != |c.data| {
        assert part + [] == part;
        return false;
      }
    }
    NothingLeft(chunks[|chunks|..]);
    assert part + [] == part;
    return clean;
  }

  lemma NothingLeft(chunks: seq<Chunk>)
    requires chunks == []
    ensures Copied(chunks) == []
  {
  }

  lemma Extended(files: map<Path, Bytes>, path: Path, start: Bytes, part: Bytes, more: Bytes)
    ensures files[path := start + part][path := (start + part) + more] == files[path := start + (part + more)]
  {
    Associative(start, part, more);
  }

  lemma CopiedStep(chunks: seq<Chunk>, i: nat)
    requires i < |chunks|
    ensures
      var c := chunks[i];
      Copied(chunks[i..]) == c.data[..c.took] + if Whole(c) then Copied(chunks[i + 1..]) else []
  {
    assert chunks[i..][1..] == chunks[i + 1..];
  }

  datatype Outcome = Exists | CannotCreate | Interrupted | CannotFinish | DoesNotMatch | Wrote(verdict: Verdict)

  /** The whole life of the file: never over another, and gone again unless its bytes are
      the whole stream and nothing says they are damaged. `removes` is whether the removal
      itself works, which the code does not ask. */
  method WriteSnapshot(disk: Disk, path: Path, sha: Bytes -> Bytes, creates: bool, chunks: seq<Chunk>, clean: bool,
                       closes: bool, removes: bool) returns (r: Outcome)
    modifies disk
    ensures r.Exists? <==> path in old(disk.files)
    ensures r.Wrote? <==>
              && path !in old(disk.files) && creates && clean && AllWhole(chunks) && closes
              && !SaysOf(Corrupt, sha, Stream(chunks))
    ensures r.CannotCreate? <==> path !in old(disk.files) && !creates
    ensures r.Interrupted? <==> path !in old(disk.files) && creates && !(clean && AllWhole(chunks))
    ensures r.CannotFinish? <==> path !in old(disk.files) && creates && clean && AllWhole(chunks) && !closes
    ensures r.DoesNotMatch? <==>
              && path !in old(disk.files) && creates && clean && AllWhole(chunks) && closes
              && SaysOf(Corrupt, sha, Stream(chunks))
    ensures r.Wrote? ==>
              && SaysOf(r.verdict, sha, Stream(chunks))
              && disk.files == old(disk.files)[path := Stream(chunks)]
    ensures !r.Wrote? && (removes || r.Exists? || r.CannotCreate?) ==> disk.files == old(disk.files)
    ensures forall other | other != path :: other in disk.files <==> other in old(disk.files)
    ensures forall other | other in old(disk.files) :: other in disk.files && disk.files[other] == old(disk.files)[other]
  {
    hide SaysOf, VerdictOn, Copied, Stream, AllWhole, WindowOf;
    VerdictSays(sha, Stream(chunks), Corrupt);
    if path in disk.files {
      return Exists;
    }
    if !creates {
      return CannotCreate;
    }
    disk.files := disk.files[path := []];
    var th := new TrailerHasher(disk, path, sha);
    var ok := Copy(th, chunks, clean);
    assert disk.files[path] == Copied(chunks);
    if AllWhole(chunks) {
      WholeIsCopied(chunks);
    }
    if !ok {
      Remove(disk, path, removes);
      return Interrupted;
    }
    if !closes {
      Remove(disk, path, removes);
      return CannotFinish;
    }
    var v := th.Verify();
    if v.Corrupt? {
      Remove(disk, path, removes);
      return DoesNotMatch;
    }
    return Wrote(v);
  }

  method Remove(disk: Disk, path: Path, works: bool)
    modifies disk
    ensures disk.files == if works then old(disk.files) - {path} else old(disk.files)
  {
    if works {
      disk.files := disk.files - {path};
    }
  }
}
