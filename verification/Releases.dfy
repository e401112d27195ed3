/** Exporting a release: every asset first, release.json last. */
module Releases {
  import opened Names
  import opened Trees
  import opened Disk
  import opened Assets
  import opened Paging
  import opened Chains

  const PAGE_SIZE := 50

  /** One uploaded asset: `body` is Err when the download is refused, else what it streams and
      whether it breaks off with an error. */
  datatype Upload = Upload(name: string, body: Maybe<Stream>, io: Io)
  datatype Stream = Stream(chunks: seq<seq<byte>>, fails: bool)

  /** os.WriteFile of release.json: done, not even opened, or broken off after some bytes. */
  datatype Writing = Wrote | NotOpened | Torn(bytes: seq<byte>)

  datatype Release = Release(tag: string, uploads: seq<Upload>, mkdirOk: bool, writing: Writing)

  function ManifestPath(dir: Key, tag: string): Key {
    ReleaseDir(dir, tag) + ["release.json"]
  }

  function Path(dir: Key, r: Release, i: nat): Key
    requires i < |r.uploads|
  {
    AssetPath(dir, r.tag, r.uploads[i].name)
  }

  /* ---- the operations, on values ---- */

  ghost function Download(t: Tree, dir: Key, tag: string, u: Upload): (Maybe<nat>, Tree) {
    if u.body.Err? then (Err, t)
    else WriteAsset(t, dir, tag, u.name, Total(u.body.value.chunks), u.body.value.fails, u.io)
  }

  ghost function Downloader(dir: Key, tag: string): Act<Upload, Asset> {
    (t: Tree, u: Upload) =>
      var (size, v) := Download(t, dir, tag, u);
      (if size.Err? then Err else Ok(Asset(u.name, size.value)), v)
  }

  /** The first `n` assets, stopping at the first failure. */
  ghost function Downloads(t: Tree, dir: Key, r: Release, n: nat): (Maybe<seq<Asset>>, Tree)
    requires n <= |r.uploads|
  {
    Chain(Downloader(dir, r.tag), t, r.uploads, n)
  }

  ghost function ManifestWrite(t: Tree, dir: Key, r: Release, assets: seq<Asset>): (bool, Tree) {
    var path := ManifestPath(dir, r.tag);
    var made := MkdirAll(t, ReleaseDir(dir, r.tag));
    if !r.mkdirOk || made.Err? then (false, t)
    else if r.writing.NotOpened? || !Openable(made.value, path) then (false, made.value)
    else if r.writing.Torn? then (false, PutFile(made.value, path, Written(made.value, path, Raw(r.writing.bytes))))
    else (true, PutFile(made.value, path, Written(made.value, path, Json(Manifest(r.tag, assets)))))
  }

  ghost function Export(t: Tree, dir: Key, r: Release): (Maybe<Manifest>, Tree) {
    var (assets, v) := Downloads(t, dir, r, |r.uploads|);
    if assets.Err? then (Err, v)
    else
      var (ok, u) := ManifestWrite(v, dir, r, assets.value);
      (if ok then Ok(Manifest(r.tag, assets.value)) else Err, u)
  }

  /* ---- what a release.json promises ---- */

  ghost predicate OnDisk(t: Tree, k: Key, size: nat) {
    k in t && t[k].File? && t[k].data.Raw? && |t[k].data.bytes| == size
  }

  ghost predicate ListsOnDisk(t: Tree, dir: Key, tag: string, assets: seq<Asset>) {
    forall i :: 0 <= i < |assets| ==> OnDisk(t, AssetPath(dir, tag, assets[i].name), assets[i].size)
  }

  ghost function ManifestIn(t: Tree, dir: Key, tag: string): Maybe<Manifest> {
    var path := ManifestPath(dir, tag);
    if path in t && t[path].File? && t[path].data.Json? then Ok(t[path].data.release) else Err
  }

  /** If there is a release.json, each asset it lists is on disk at the size it says. */
  ghost predicate Truthful(t: Tree, dir: Key, tag: string) {
    ManifestIn(t, dir, tag).Ok? ==> ListsOnDisk(t, dir, tag, ManifestIn(t, dir, tag).value.assets)
  }

  function Length(u: Upload): nat {
    if u.body.Ok? then |Total(u.body.value.chunks)| else 0
  }

  predicate SameFile(r: Release, i: nat, j: nat)
    requires i < |r.uploads| && j < |r.uploads|
  {
    Sanitize(r.uploads[i].name) == Sanitize(r.uploads[j].name)
  }

  /** Assets that share a file also share a size. */
  ghost predicate SizesAgree(r: Release) {
    forall i, j ::
      0 <= i < |r.uploads| && 0 <= j < |r.uploads| && SameFile(r, i, j) ==> Length(r.uploads[i]) == Length(r.uploads[j])
  }

  /* ---- downloads ---- */

  ghost predicate Recorded(r: Release, n: nat, assets: seq<Asset>)
    requires n <= |r.uploads|
  {
    && |assets| == n
    && forall i :: 0 <= i < n ==> assets[i] == Asset(r.uploads[i].name, Length(r.uploads[i]))
  }

  /** A file holding as many bytes as asset `j`, one of the first `n` that go to it. */
  ghost predicate HeldBy(t: Tree, dir: Key, r: Release, n: nat, i: nat, j: nat)
    requires i < |r.uploads|
  {
    j < n <= |r.uploads| && SameFile(r, i, j) && OnDisk(t, Path(dir, r, i), Length(r.uploads[j]))
  }

  ghost predicate Held(t: Tree, dir: Key, r: Release, n: nat, i: nat) {
    i < |r.uploads| && exists j: nat :: HeldBy(t, dir, r, n, i, j)
  }

  lemma DownloadWrites(t: Tree, dir: Key, tag: string, u: Upload)
    requires Download(t, dir, tag, u).0.Ok?
    ensures Download(t, dir, tag, u).0.value == Length(u)
    ensures OnDisk(Download(t, dir, tag, u).1, AssetPath(dir, tag, u.name), Length(u))
  {
    AssetWrittenIff(t, dir, tag, u.name, Total(u.body.value.chunks), u.body.value.fails, u.io);
  }

  /** A download leaves the other assets' files and release.json alone. */
  lemma DownloadSpares(t: Tree, dir: Key, tag: string, u: Upload, k: Key)
    requires k == ManifestPath(dir, tag) || exists name :: k == AssetPath(dir, tag, name) && Sanitize(name) != Sanitize(u.name)
    ensures SameAt(t, Download(t, dir, tag, u).1, k)
  {
    var path, rel := AssetPath(dir, tag, u.name), ReleaseDir(dir, tag);
    assert path[|rel|] == "assets";
    if k == ManifestPath(dir, tag) {
      assert k[|rel|] == "release.json";
      assert AssetDir(dir, tag)[|rel|] == "assets";
    } else {
      var name :| k == AssetPath(dir, tag, name) && Sanitize(name) != Sanitize(u.name);
      assert k[|rel| + 1] == Sanitize(name) && path[|rel| + 1] == Sanitize(u.name);
    }
    if u.body.Ok? {
      AssetTouchesOnlyItsPath(t, dir, tag, u.name, Total(u.body.value.chunks), u.body.value.fails, u.io, k);
    }
  }

  lemma HeldStep(v: Tree, dir: Key, r: Release, n: nat, i: nat)
    requires i <= n < |r.uploads| && Download(v, dir, r.tag, r.uploads[n]).0.Ok?
    requires i < n ==> Held(v, dir, r, n, i)
    ensures Held(Download(v, dir, r.tag, r.uploads[n]).1, dir, r, n + 1, i)
  {
    var w := Download(v, dir, r.tag, r.uploads[n]).1;
    if SameFile(r, i, n) {
      DownloadWrites(v, dir, r.tag, r.uploads[n]);
      assert HeldBy(w, dir, r, n + 1, i, n);
    } else {
      var j: nat :| HeldBy(v, dir, r, n, i, j);
      DownloadSpares(v, dir, r.tag, r.uploads[n], Path(dir, r, i));
      assert HeldBy(w, dir, r, n + 1, i, j);
    }
  }

  lemma DownloadsSpareManifest(t: Tree, dir: Key, r: Release, n: nat)
    requires n <= |r.uploads|
    ensures SameAt(t, Downloads(t, dir, r, n).1, ManifestPath(dir, r.tag))
  {
    var k := ManifestPath(dir, r.tag);
    forall v, u ensures SameAt(v, Downloader(dir, r.tag)(v, u).1, k) {
      DownloadSpares(v, dir, r.tag, u, k);
    }
    ChainKeeps(Downloader(dir, r.tag), t, r.uploads, n, (v: Tree, i: nat) => SameAt(t, v, k));
  }

  ghost predicate AllHeld(t: Tree, dir: Key, r: Release, n: nat) {
    forall i :: 0 <= i < n ==> Held(t, dir, r, n, i)
  }

  lemma HeldByAll(v: Tree, dir: Key, r: Release, n: nat)
    requires n < |r.uploads| && Download(v, dir, r.tag, r.uploads[n]).0.Ok?
    requires AllHeld(v, dir, r, n)
    ensures AllHeld(Download(v, dir, r.tag, r.uploads[n]).1, dir, r, n + 1)
  {
    var m := n + 1;
    forall i | 0 <= i < m ensures Held(Download(v, dir, r.tag, r.uploads[n]).1, dir, r, m, i) {
      HeldStep(v, dir, r, n, i);
    }
  }

  /** Each of the assets downloaded so far has a file, holding it or a later one that went to
      the same file. */
  lemma {:induction false} DownloadsHold(t: Tree, dir: Key, r: Release, n: nat)
    requires n <= |r.uploads| && Downloads(t, dir, r, n).0.Ok?
    ensures Recorded(r, n, Downloads(t, dir, r, n).0.value)
    ensures AllHeld(Downloads(t, dir, r, n).1, dir, r, n)
  {
    if n > 0 {
      DownloadsStep(t, dir, r, n - 1);
      DownloadsHold(t, dir, r, n - 1);
      var v := Downloads(t, dir, r, n - 1).1;
      DownloadWrites(v, dir, r.tag, r.uploads[n - 1]);
      HeldByAll(v, dir, r, n - 1);
      RecordedNext(r, n - 1, Downloads(t, dir, r, n - 1).0.value);
    }
  }

  lemma RecordedNext(r: Release, n: nat, assets: seq<Asset>)
    requires n < |r.uploads| && Recorded(r, n, assets)
    ensures Recorded(r, n + 1, assets + [Asset(r.uploads[n].name, Length(r.uploads[n]))])
  {
  }

  lemma DownloadsStep(t: Tree, dir: Key, r: Release, n: nat)
    requires n < |r.uploads| && Downloads(t, dir, r, n + 1).0.Ok?
    ensures Downloads(t, dir, r, n).0.Ok?
    ensures var (size, w) := Download(Downloads(t, dir, r, n).1, dir, r.tag, r.uploads[n]);
            && size.Ok? && Downloads(t, dir, r, n + 1).1 == w
            && Downloads(t, dir, r, n + 1).0.value == Downloads(t, dir, r, n).0.value + [Asset(r.uploads[n].name, size.value)]
  {
  }

  /* ---- the release ---- */

  lemma ManifestWriteSpares(t: Tree, dir: Key, r: Release, assets: seq<Asset>, name: string)
    ensures SameAt(t, ManifestWrite(t, dir, r, assets).1, AssetPath(dir, r.tag, name))
  {
    var rel, k := ReleaseDir(dir, r.tag), AssetPath(dir, r.tag, name);
    assert k[|rel|] == "assets" && ManifestPath(dir, r.tag)[|rel|] == "release.json";
  }

  lemma ManifestWriteWrites(t: Tree, dir: Key, r: Release, assets: seq<Asset>)
    ensures var (ok, u) := ManifestWrite(t, dir, r, assets);
            var path := ManifestPath(dir, r.tag);
            && (ok ==> path in u && u[path].File? && u[path].data == Json(Manifest(r.tag, assets)))
            && (!ok && path !in t ==> path in u ==> u[path].File? && u[path].data.Raw?)
  {
    var path := ManifestPath(dir, r.tag);
    assert path[|path|..] == [];
    assert !(path <= ReleaseDir(dir, r.tag));
  }

  /** A tree holding each asset, or a later one in the same file, holds all of them at the
      recorded sizes exactly if assets that share a file share a size. */
  lemma HeldIffSizesAgree(u: Tree, dir: Key, r: Release, assets: seq<Asset>)
    requires Recorded(r, |r.uploads|, assets)
    requires forall i :: 0 <= i < |r.uploads| ==> Held(u, dir, r, |r.uploads|, i)
    ensures ListsOnDisk(u, dir, r.tag, assets) <==> SizesAgree(r)
  {
    var n := |r.uploads|;
    if SizesAgree(r) {
      forall i | 0 <= i < n ensures OnDisk(u, AssetPath(dir, r.tag, assets[i].name), assets[i].size) {
        assert Held(u, dir, r, n, i);
        var j: nat :| HeldBy(u, dir, r, n, i, j);
        assert SameFile(r, i, j);
      }
    } else {
      var i, j :| 0 <= i < n && 0 <= j < n && SameFile(r, i, j) && Length(r.uploads[i]) != Length(r.uploads[j]);
      assert AssetPath(dir, r.tag, assets[i].name) == AssetPath(dir, r.tag, assets[j].name);
      assert !OnDisk(u, AssetPath(dir, r.tag, assets[i].name), assets[i].size) ||
             !OnDisk(u, AssetPath(dir, r.tag, assets[j].name), assets[j].size);
    }
  }

  lemma ManifestWriteKeepsHeld(v: Tree, dir: Key, r: Release, assets: seq<Asset>, i: nat)
    requires Held(v, dir, r, |r.uploads|, i)
    ensures Held(ManifestWrite(v, dir, r, assets).1, dir, r, |r.uploads|, i)
  {
    var j: nat :| HeldBy(v, dir, r, |r.uploads|, i, j);
    ManifestWriteSpares(v, dir, r, assets, r.uploads[i].name);
    assert HeldBy(ManifestWrite(v, dir, r, assets).1, dir, r, |r.uploads|, i, j);
  }

  /** A release.json just written names every uploaded asset, and is truthful exactly if
      assets that share a file share a size; distinct sanitized names are enough. */
  lemma WrittenManifestTruthfulIff(t: Tree, dir: Key, r: Release)
    requires Export(t, dir, r).0.Ok?
    ensures ManifestIn(Export(t, dir, r).1, dir, r.tag) == Export(t, dir, r).0
    ensures Export(t, dir, r).0.value.tag == r.tag && Recorded(r, |r.uploads|, Export(t, dir, r).0.value.assets)
    ensures Truthful(Export(t, dir, r).1, dir, r.tag) <==> SizesAgree(r)
  {
    var n := |r.uploads|;
    var (assets, v) := Downloads(t, dir, r, n);
    DownloadsHold(t, dir, r, n);
    ManifestWriteWrites(v, dir, r, assets.value);
    forall i | 0 <= i < n ensures Held(ManifestWrite(v, dir, r, assets.value).1, dir, r, n, i) {
      ManifestWriteKeepsHeld(v, dir, r, assets.value, i);
    }
    HeldIffSizesAgree(ManifestWrite(v, dir, r, assets.value).1, dir, r, assets.value);
  }

  /** However an export of a release that had no release.json ends, there is none that lists
      an asset which is not on disk at the recorded size. */
  lemma ExportIsTruthful(t: Tree, dir: Key, r: Release)
    requires ManifestPath(dir, r.tag) !in t && SizesAgree(r)
    ensures Truthful(Export(t, dir, r).1, dir, r.tag)
  {
    if Export(t, dir, r).0.Ok? {
      WrittenManifestTruthfulIff(t, dir, r);
    } else {
      var (assets, v) := Downloads(t, dir, r, |r.uploads|);
      DownloadsSpareManifest(t, dir, r, |r.uploads|);
      if assets.Ok? {
        ManifestWriteWrites(v, dir, r, assets.value);
      }
    }
  }

  /* ---- every release of a repository ---- */

  ghost function Exporter(dir: Key): Act<Release, Manifest> {
    (u: Tree, r: Release) => Export(u, dir, r)
  }

  /** The first `n` releases, stopping at the first failure. */
  ghost function Exports(t: Tree, dir: Key, rs: seq<Release>, n: nat): (Maybe<seq<Manifest>>, Tree)
    requires n <= |rs|
  {
    Chain(Exporter(dir), t, rs, n)
  }

  lemma DownloadStaysInside(t: Tree, dir: Key, tag: string, u: Upload, k: Key)
    requires |dir| < |k| && k[|dir|] != Sanitize(tag)
    ensures SameAt(t, Download(t, dir, tag, u).1, k)
  {
    var path := AssetPath(dir, tag, u.name);
    assert path[|dir|] == Sanitize(tag) && AssetDir(dir, tag)[|dir|] == Sanitize(tag);
    if u.body.Ok? {
      AssetTouchesOnlyItsPath(t, dir, tag, u.name, Total(u.body.value.chunks), u.body.value.fails, u.io, k);
    }
  }

  lemma DownloadsStayInside(t: Tree, dir: Key, r: Release, n: nat, k: Key)
    requires n <= |r.uploads| && |dir| < |k| && k[|dir|] != Sanitize(r.tag)
    ensures SameAt(t, Downloads(t, dir, r, n).1, k)
  {
    forall v, u ensures SameAt(v, Downloader(dir, r.tag)(v, u).1, k) {
      DownloadStaysInside(v, dir, r.tag, u, k);
    }
    ChainKeeps(Downloader(dir, r.tag), t, r.uploads, n, (v: Tree, i: nat) => SameAt(t, v, k));
  }

  lemma ManifestStaysInside(t: Tree, dir: Key, r: Release, assets: seq<Asset>, k: Key)
    requires |dir| < |k| && k[|dir|] != Sanitize(r.tag)
    ensures SameAt(t, ManifestWrite(t, dir, r, assets).1, k)
  {
    assert ManifestPath(dir, r.tag)[|dir|] == Sanitize(r.tag) && ReleaseDir(dir, r.tag)[|dir|] == Sanitize(r.tag);
  }

  /** An export touches nothing of a release whose tag is sanitized differently. */
  lemma ExportStaysInside(t: Tree, dir: Key, r: Release, k: Key)
    requires |dir| < |k| && k[|dir|] != Sanitize(r.tag)
    ensures SameAt(t, Export(t, dir, r).1, k)
  {
    DownloadsStayInside(t, dir, r, |r.uploads|, k);
    var (assets, v) := Downloads(t, dir, r, |r.uploads|);
    if assets.Ok? {
      ManifestStaysInside(v, dir, r, assets.value, k);
    }
  }

  lemma TruthStays(t: Tree, dir: Key, r: Release, tag: string)
    requires Sanitize(tag) != Sanitize(r.tag)
    ensures SameAt(t, Export(t, dir, r).1, ManifestPath(dir, tag))
    ensures Truthful(t, dir, tag) ==> Truthful(Export(t, dir, r).1, dir, tag)
  {
    var u := Export(t, dir, r).1;
    assert ManifestPath(dir, tag)[|dir|] == Sanitize(tag);
    ExportStaysInside(t, dir, r, ManifestPath(dir, tag));
    if ManifestIn(t, dir, tag).Ok? && Truthful(t, dir, tag) {
      var assets := ManifestIn(t, dir, tag).value.assets;
      forall i | 0 <= i < |assets| ensures OnDisk(u, AssetPath(dir, tag, assets[i].name), assets[i].size) {
        assert AssetPath(dir, tag, assets[i].name)[|dir|] == Sanitize(tag);
        ExportStaysInside(t, dir, r, AssetPath(dir, tag, assets[i].name));
      }
    }
  }

  ghost predicate TagsApart(rs: seq<Release>) {
    forall i, j :: 0 <= i < j < |rs| ==> Sanitize(rs[i].tag) != Sanitize(rs[j].tag)
  }

  /** The first `n` releases may have a release.json, a truthful one; the rest have none. */
  ghost predicate TruthfulUpTo(t: Tree, dir: Key, rs: seq<Release>, n: nat) {
    && (forall i :: 0 <= i < |rs| ==> Truthful(t, dir, rs[i].tag))
    && (forall i :: n <= i < |rs| ==> ManifestPath(dir, rs[i].tag) !in t)
  }

  lemma TruthfulNext(t: Tree, dir: Key, rs: seq<Release>, n: nat)
    requires n < |rs| && TagsApart(rs) && TruthfulUpTo(t, dir, rs, n) && SizesAgree(rs[n])
    ensures TruthfulUpTo(Export(t, dir, rs[n]).1, dir, rs, n + 1)
  {
    var u := Export(t, dir, rs[n]).1;
    ExportIsTruthful(t, dir, rs[n]);
    forall i | 0 <= i < |rs| && i != n
      ensures Truthful(u, dir, rs[i].tag) && SameAt(t, u, ManifestPath(dir, rs[i].tag))
    {
      TruthStays(t, dir, rs[n], rs[i].tag);
    }
  }

  /** Releases whose tags do not meet, none exported before: wherever the export stops, every
      release.json there is tells the truth. */
  lemma AllTruthful(t: Tree, dir: Key, rs: seq<Release>, n: nat)
    requires n <= |rs| && TagsApart(rs)
    requires forall i :: 0 <= i < |rs| ==> ManifestPath(dir, rs[i].tag) !in t
    requires forall i :: 0 <= i < |rs| ==> SizesAgree(rs[i])
    ensures TruthfulUpTo(Exports(t, dir, rs, n).1, dir, rs, n)
  {
    forall u, k: nat | k < |rs| && TruthfulUpTo(u, dir, rs, k)
      ensures TruthfulUpTo(u, dir, rs, k + 1) && TruthfulUpTo(Export(u, dir, rs[k]).1, dir, rs, k + 1)
    {
      TruthfulNext(u, dir, rs, k);
    }
    ChainKeeps(Exporter(dir), t, rs, n, (u: Tree, k: nat) => TruthfulUpTo(u, dir, rs, k));
  }

  /* ---- the exporter ---- */

  method DownloadAsset(d: Disk, dir: Key, tag: string, u: Upload) returns (size: Maybe<nat>)
    modifies d
    ensures (size, d.tree) == Download(old(d.tree), dir, tag, u)
  {
    if u.body.Err? {
      return Err;
    }
    size := WriteReleaseAsset(d, dir, tag, u.name, u.body.value.chunks, u.body.value.fails, u.io);
  }

  method WriteRelease(d: Disk, dir: Key, r: Release, assets: seq<Asset>) returns (ok: bool)
    modifies d
    ensures (ok, d.tree) == ManifestWrite(old(d.tree), dir, r, assets)
  {
    var made := d.MkdirAll(ReleaseDir(dir, r.tag), r.mkdirOk);
    if !made {
      return false;
    }
    var path := ManifestPath(dir, r.tag);
    if r.writing.NotOpened? || (path in d.tree && !d.tree[path].File?) {
      return false;
    }
    var mode := if path in d.tree then d.tree[path].mode else FILE_MODE;
    if r.writing.Torn? {
      d.Install(path, map[[] := File(mode, Raw(r.writing.bytes))]);
      return false;
    }
    d.Install(path, map[[] := File(mode, Json(Manifest(r.tag, assets)))]);
    return true;
  }

  /** exportRelease: every asset first, so that release.json never runs ahead of them. */
  method ExportRelease(d: Disk, dir: Key, r: Release) returns (ok: bool)
    modifies d
    ensures var (m, u) := Export(old(d.tree), dir, r); ok == m.Ok? && d.tree == u
  {
    var assets := new Asset[|r.uploads|](_ => Asset("", 0));
    for i := 0 to |r.uploads|
      invariant Downloads(old(d.tree), dir, r, i) == (Ok(assets[..i]), d.tree)
    {
      ghost var done := assets[..i];
      var size := DownloadAsset(d, dir, r.tag, r.uploads[i]);
      if size.Err? {
        FailureEnds(Downloader(dir, r.tag), old(d.tree), r.uploads, i + 1, |r.uploads|);
        return false;
      }
      assets[i] := Asset(r.uploads[i].name, size.value);
      assert assets[..i + 1] == done + [assets[i]];
    }
    assert assets[..|r.uploads|] == assets[..];
    ok := WriteRelease(d, dir, r, assets[..]);
  }

  /** The first `n` releases have been exported, the last of them as `ok` says. */
  ghost predicate Exported(t0: Tree, dir: Key, rs: seq<Release>, n: nat, ok: bool, t: Tree) {
    n <= |rs| && Exports(t0, dir, rs, n).0.Ok? == ok && Exports(t0, dir, rs, n).1 == t
  }

  lemma ExportedNext(t0: Tree, dir: Key, rs: seq<Release>, n: nat, t: Tree)
    requires n < |rs| && Exported(t0, dir, rs, n, true, t)
    ensures var (m, u) := Export(t, dir, rs[n]); Exported(t0, dir, rs, n + 1, m.Ok?, u)
  {
  }

  /** One page of releases, which start at number `lo`. */
  method ExportPage(d: Disk, dir: Key, items: seq<Release>, ghost t0: Tree, ghost rs: seq<Release>, ghost lo: nat)
    returns (ok: bool, ghost n: nat)
    requires lo + |items| <= |rs| && items == rs[lo..lo + |items|]
    requires Exported(t0, dir, rs, lo, true, d.tree)
    modifies d
    ensures Exported(t0, dir, rs, n, ok, d.tree)
    ensures ok ==> n == lo + |items|
  {
    n := lo;
    for i := 0 to |items|
      invariant n == lo + i
      invariant Exported(t0, dir, rs, n, true, d.tree)
    {
      assert items[i] == rs[n];
      ExportedNext(t0, dir, rs, n, d.tree);
      ok := ExportRelease(d, dir, items[i]);
      n := n + 1;
      if !ok {
        return;
      }
    }
    ok := true;
  }

  /** Export: page after page of releases. It deals with the first `n` releases and no more,
      and succeeds exactly if every page came and no release failed (`whole`). */
  method ExportAll(d: Disk, dir: Key, rs: seq<Release>, failing: iset<nat>)
    returns (ok: bool, ghost n: nat, ghost whole: bool)
    modifies d
    ensures Exported(old(d.tree), dir, rs, n, whole, d.tree)
    ensures ok ==> n == |rs|
    ensures ok <==> whole && AnsweredBefore(failing, Requests(|rs|, PAGE_SIZE) + 1)
  {
    ghost var t0, last := d.tree, Requests(|rs|, PAGE_SIZE);
    var page: nat := 1;
    n, whole := 0, true;
    while true
      invariant 1 <= page <= last
      invariant n == |Before(rs, PAGE_SIZE, page)| && AnsweredBefore(failing, page)
      invariant Exported(t0, dir, rs, n, true, d.tree) && whole
      decreases last - page
    {
      if page in failing {
        return false, n, whole;
      }
      AnsweredNext(failing, page);
      var items := Page(rs, PAGE_SIZE, page);
      PageExtends(rs, PAGE_SIZE, page);
      assert items == rs[n..n + |items|];
      if |items| == 0 {
        return true, n, whole;
      }
      ok, n := ExportPage(d, dir, items, t0, rs, n);
      whole := ok;
      if !ok {
        return;
      }
      if |items| < PAGE_SIZE {
        return;
      }
      page := page + 1;
    }
  }
}
