/** Release assets: safe file names, and a download streamed to disk under a size cap. */
module Assets {
  import opened Names
  import opened Trees
  import opened Disk
  import Mirror

  /* ---- names ---- */

  /** A name that is one path component and stays where it is put. */
  predicate Safe(name: string) {
    && '/' !in name && '\\' !in name
    && name != "" && name != "." && name != ".."
  }

  function Replaced(name: string): (r: string)
    ensures |r| == |name|
    ensures forall i :: 0 <= i < |name| ==> r[i] == if name[i] in "/\\" then '-' else name[i]
  {
    seq(|name|, i requires 0 <= i < |name| => if name[i] in "/\\" then '-' else name[i])
  }

  /** sanitizeName. Safe names are exactly those it leaves alone. */
  function Sanitize(name: string): (r: string)
    ensures Safe(r)
    ensures r == name <==> Safe(name)
  {
    var r := Replaced(name);
    if r == "" || r == "." || r == ".." then "_" else r
  }

  predicate Placeheld(name: string) {
    name == "" || name == "." || name == ".." || name == "_"
  }

  /** Equal but for which of `/`, `\` and `-` stands where. */
  predicate SameButForSlashes(a: string, b: string) {
    && |a| == |b|
    && forall i :: 0 <= i < |a| ==> a[i] == b[i] || (a[i] in "/\\-" && b[i] in "/\\-")
  }

  lemma SameReplaced(a: string, b: string)
    ensures Replaced(a) == Replaced(b) <==> SameButForSlashes(a, b)
  {
    if SameButForSlashes(a, b) {
      assert Replaced(a) == Replaced(b);
    } else if |a| == |b| {
      var i :| 0 <= i < |a| && a[i] != b[i] && !(a[i] in "/\\-" && b[i] in "/\\-");
      assert Replaced(a)[i] != Replaced(b)[i];
    }
  }

  lemma PlaceheldIff(name: string)
    ensures Sanitize(name) == "_" <==> Placeheld(name)
  {
    var r := Replaced(name);
    if r == "." || r == ".." || r == "_" {
      assert forall i :: 0 <= i < |name| ==> name[i] == r[i];
      assert name == r;
    }
  }

  /** Exactly which names meet. */
  lemma NamesMeetIff(a: string, b: string)
    ensures Sanitize(a) == Sanitize(b) <==> SameButForSlashes(a, b) || (Placeheld(a) && Placeheld(b))
  {
    PlaceheldIff(a);
    PlaceheldIff(b);
    SameReplaced(a, b);
  }

  /** Two different tags can share a directory. */
  lemma TagsCanMeet()
    ensures "releases/v1" != "releases-v1" && Sanitize("releases/v1") == Sanitize("releases-v1")
  {
    NamesMeetIff("releases/v1", "releases-v1");
  }

  /* ---- one asset ---- */

  const MAX_RELEASE_ASSET_SIZE: nat := 0x1_0000_0000   // 4 GiB
  const FILE_MODE := 0x180   // octal 0600

  /** How the disk takes part: `space` is how many bytes of this file it accepts. */
  datatype Io = Io(mkdirOk: bool, openOk: bool, space: nat, closeOk: bool, removeOk: bool)

  function ReleaseDir(dir: Key, tag: string): Key {
    dir + [Sanitize(tag)]
  }

  function AssetDir(dir: Key, tag: string): Key {
    ReleaseDir(dir, tag) + ["assets"]
  }

  function AssetPath(dir: Key, tag: string, name: string): Key {
    AssetDir(dir, tag) + [Sanitize(name)]
  }

  function Min(a: nat, b: nat): nat {
    if a <= b then a else b
  }

  predicate Openable(t: Tree, k: Key) {
    k !in t || t[k].File?
  }

  /** O_TRUNC keeps the mode of a file that is there. */
  function Written(t: Tree, k: Key, data: Blob): Node {
    File(if k in t && t[k].File? then t[k].mode else FILE_MODE, data)
  }

  /** How much of a body of `n` bytes reaches the file. */
  function Copied(n: nat, space: nat): (r: nat)
    ensures r <= n
  {
    Min(Min(n, MAX_RELEASE_ASSET_SIZE + 1), space)
  }

  /** Neither a write nor a read failed. A read past the cap is never made. */
  predicate CopyOk(n: nat, fails: bool, space: nat) {
    Min(n, MAX_RELEASE_ASSET_SIZE + 1) <= space && !(fails && n <= MAX_RELEASE_ASSET_SIZE)
  }

  /** What WriteReleaseAsset returns and leaves, for a body read as `bytes` in whatever pieces
      and then, if `fails`, as an error. */
  ghost function WriteAsset(t: Tree, dir: Key, tag: string, name: string, bytes: seq<byte>, fails: bool, io: Io): (Maybe<nat>, Tree) {
    var path := AssetPath(dir, tag, name);
    var made := MkdirAll(t, AssetDir(dir, tag));
    if !io.mkdirOk || made.Err? then (Err, t)
    else if !io.openOk || !Openable(made.value, path) then (Err, made.value)
    else
      var u := PutFile(made.value, path, Written(made.value, path, Raw(bytes[..Copied(|bytes|, io.space)])));
      if !CopyOk(|bytes|, fails, io.space) || |bytes| > MAX_RELEASE_ASSET_SIZE then
        (Err, if io.removeOk then Remove(u, path) else u)
      else if !io.closeOk then (Err, u)
      else (Ok(|bytes|), u)
  }

  ghost predicate CanOpen(t: Tree, dir: Key, tag: string, name: string, io: Io) {
    && io.mkdirOk && MkdirAll(t, AssetDir(dir, tag)).Ok?
    && io.openOk && Openable(t, AssetPath(dir, tag, name))
  }

  ghost predicate Holds(t: Tree, k: Key, bytes: seq<byte>) {
    k in t && t[k].File? && t[k].data == Raw(bytes)
  }

  /** Once the file can be opened, an asset is written exactly if reading and closing succeed,
      the disk takes it and it is within the cap, the cap itself included. Then the file is
      the body and the size its length. A failed read, a full disk or a body over the cap
      leaves no file; only a failed close does. */
  lemma AssetWrittenIff(t: Tree, dir: Key, tag: string, name: string, bytes: seq<byte>, fails: bool, io: Io)
    requires CanOpen(t, dir, tag, name, io)
    ensures var (size, u) := WriteAsset(t, dir, tag, name, bytes, fails, io);
            var path := AssetPath(dir, tag, name);
            && (size.Ok? <==> !fails && |bytes| <= MAX_RELEASE_ASSET_SIZE && |bytes| <= io.space && io.closeOk)
            && (size.Ok? ==> size.value == |bytes| && Holds(u, path, bytes))
            && (size.Err? && io.removeOk ==>
                  (path in u <==> !io.closeOk && !fails && |bytes| <= MAX_RELEASE_ASSET_SIZE && |bytes| <= io.space))
  {
    var path := AssetPath(dir, tag, name);
    var made := MkdirAll(t, AssetDir(dir, tag)).value;
    var u := PutFile(made, path, Written(made, path, Raw(bytes[..Copied(|bytes|, io.space)])));
    assert path[|path|..] == [];
    assert bytes[..|bytes|] == bytes;
    RemovableFile(made, path, u[path]);
  }

  lemma RemovableFile(t: Tree, k: Key, n: Node)
    ensures Removable(PutFile(t, k, n), k)
  {
    var u := PutFile(t, k, n);
    assert k[|k|..] == [];
    forall j | j in u && k <= j ensures j == k {
      assert j[|k|..] == [];
    }
  }

  /** Whatever comes of it, nothing changes but the asset's own path and, where they were
      missing, the directories above it. */
  lemma AssetTouchesOnlyItsPath(t: Tree, dir: Key, tag: string, name: string, bytes: seq<byte>, fails: bool, io: Io, k: Key)
    requires !(AssetPath(dir, tag, name) <= k) && !(k <= AssetDir(dir, tag))
    ensures SameAt(t, WriteAsset(t, dir, tag, name, bytes, fails, io).1, k)
  {
  }

  /* ---- the streaming itself ---- */

  function Total(chunks: seq<seq<byte>>): seq<byte> {
    if chunks == [] then [] else chunks[0] + Total(chunks[1..])
  }

  lemma NextPiece(body: seq<byte>, done: seq<byte>, rest: seq<seq<byte>>, limit: nat, taken: nat)
    requires rest != [] && body == done + Total(rest) && |done| < limit
    requires taken <= |rest[0]| && |done| + taken <= limit
    ensures done + rest[0][..taken] == body[..|done| + taken]
    ensures taken == |rest[0]| ==> body == done + rest[0][..taken] + Total(rest[1..])
    ensures |done| + |rest[0]| <= |body|
  {
  }

  /** Where the copy stands: what is left, unless the limit is reached. */
  ghost predicate Streaming(body: seq<byte>, done: seq<byte>, rest: seq<seq<byte>>, limit: nat, space: nat) {
    && |done| <= limit && |done| <= space
    && done <= body
    && (|done| < limit ==> body == done + Total(rest))
  }

  /** io.Copy through the limit reader: chunk by chunk, until the limit, the disk or the body
      gives out. */
  method Copy(d: Disk, path: Key, mode: nat, chunks: seq<seq<byte>>, fails: bool, space: nat) returns (n: nat, ok: bool)
    modifies d
    ensures n == Copied(|Total(chunks)|, space)
    ensures ok == CopyOk(|Total(chunks)|, fails, space)
    ensures d.tree == PutFile(old(d.tree), path, File(mode, Raw(Total(chunks)[..n])))
  {
    var limit := MAX_RELEASE_ASSET_SIZE + 1;
    var done: seq<byte> := [];
    ghost var body := Total(chunks);
    d.Install(path, map[[] := File(mode, Raw([]))]);
    var i := 0;
    assert chunks[0..] == chunks;
    while i < |chunks| && |done| < limit
      invariant 0 <= i <= |chunks|
      invariant Streaming(body, done, chunks[i..], limit, space)
      invariant d.tree == PutFile(old(d.tree), path, File(mode, Raw(done)))
    {
      var piece := Min(|chunks[i]|, limit - |done|);
      var taken := Min(piece, space - |done|);
      assert chunks[i..][1..] == chunks[i + 1..];
      NextPiece(body, done, chunks[i..], limit, taken);
      assert path[|path|..] == [];
      d.Append(path, mode, done, chunks[i][..taken]);
      done := done + chunks[i][..taken];
      if taken < piece {
        return |done|, false;
      }
      i := i + 1;
    }
    assert done == body[..|done|];
    return |done|, !(fails && |done| < limit);
  }

  /** WriteReleaseAsset, which sees only chunks; the outcome depends on nothing but the bytes
      they add up to. */
  method WriteReleaseAsset(d: Disk, dir: Key, tag: string, name: string, chunks: seq<seq<byte>>, fails: bool, io: Io)
    returns (size: Maybe<nat>)
    modifies d
    ensures (size, d.tree) == WriteAsset(old(d.tree), dir, tag, name, Total(chunks), fails, io)
  {
    var made := d.MkdirAll(AssetDir(dir, tag), io.mkdirOk);
    if !made {
      return Err;
    }
    var path := AssetPath(dir, tag, name);
    if !io.openOk || (path in d.tree && !d.tree[path].File?) {
      return Err;
    }
    var mode := if path in d.tree then d.tree[path].mode else FILE_MODE;
    var n, copied := Copy(d, path, mode, chunks, fails, io.space);
    if !copied {
      var _ := d.Remove(path, io.removeOk);
      return Err;
    }
    if n > MAX_RELEASE_ASSET_SIZE {
      var _ := d.Remove(path, io.removeOk);
      return Err;
    }
    if !io.closeOk {
      return Err;
    }
    return Ok(n);
  }
}
