/** Exporting a release exactly: when it succeeds, what a failure leaves behind, and when an
    older release.json still tells the truth afterwards. */
module Reexports {
  import opened Names
  import opened Trees
  import opened Assets
  import opened Chains
  import opened Releases

  /* ---- what one download leaves at its file ---- */

  /** Nothing happened to the file, it is gone, or it is there with so many bytes. */
  datatype Mark = Untouched | Gone | Sized(n: nat)

  ghost predicate Opens(t: Tree, dir: Key, tag: string, v: Upload) {
    v.body.Ok? && CanOpen(t, dir, tag, v.name, v.io)
  }

  predicate Fits(v: Upload) {
    v.body.Ok? && CopyOk(Length(v), v.body.value.fails, v.io.space) && Length(v) <= MAX_RELEASE_ASSET_SIZE
  }

  ghost function Leaves(t: Tree, dir: Key, tag: string, v: Upload): Mark {
    if !Opens(t, dir, tag, v) then Untouched
    else if Fits(v) then Sized(Length(v))
    else if v.io.removeOk then Gone
    else Sized(Copied(Length(v), v.io.space))
  }

  /** The download gets through: it is answered, its file opens, the body arrives within the cap
      and the disk's space, and the file closes. */
  ghost predicate Delivers(t: Tree, dir: Key, tag: string, v: Upload) {
    Opens(t, dir, tag, v) && Fits(v) && v.io.closeOk
  }

  ghost predicate Marked(t: Tree, u: Tree, k: Key, mark: Mark) {
    match mark
    case Untouched => SameAt(t, u, k)
    case Gone => k !in u
    case Sized(n) => OnDisk(u, k, n)
  }

  lemma AssetMarks(t: Tree, dir: Key, tag: string, name: string, bytes: seq<byte>, fails: bool, io: Io)
    requires CanOpen(t, dir, tag, name, io)
    ensures var (size, u) := WriteAsset(t, dir, tag, name, bytes, fails, io);
            var path, fits := AssetPath(dir, tag, name), CopyOk(|bytes|, fails, io.space) && |bytes| <= MAX_RELEASE_ASSET_SIZE;
            && (size.Ok? <==> fits && io.closeOk)
            && Marked(t, u, path, if fits then Sized(|bytes|) else if io.removeOk then Gone else Sized(Copied(|bytes|, io.space)))
  {
    var path := AssetPath(dir, tag, name);
    var made := MkdirAll(t, AssetDir(dir, tag)).value;
    var u := PutFile(made, path, Written(made, path, Raw(bytes[..Copied(|bytes|, io.space)])));
    assert path[|path|..] == [];
    assert bytes[..|bytes|] == bytes;
    RemovableFile(made, path, u[path]);
  }

  lemma AssetNotOpened(t: Tree, dir: Key, tag: string, name: string, bytes: seq<byte>, fails: bool, io: Io)
    requires !CanOpen(t, dir, tag, name, io)
    ensures var (size, u) := WriteAsset(t, dir, tag, name, bytes, fails, io);
            size.Err? && SameAt(t, u, AssetPath(dir, tag, name))
  {
  }

  lemma DownloadMarks(t: Tree, dir: Key, tag: string, v: Upload)
    ensures Download(t, dir, tag, v).0.Ok? <==> Delivers(t, dir, tag, v)
    ensures Marked(t, Download(t, dir, tag, v).1, AssetPath(dir, tag, v.name), Leaves(t, dir, tag, v))
  {
    if v.body.Ok? {
      var bytes, fails := Total(v.body.value.chunks), v.body.value.fails;
      if Opens(t, dir, tag, v) {
        AssetMarks(t, dir, tag, v.name, bytes, fails, v.io);
      } else {
        AssetNotOpened(t, dir, tag, v.name, bytes, fails, v.io);
      }
    }
  }

  /* ---- no download gets in the way of another's opening its file ---- */

  /** As far as making directories and opening asset files goes, `u` is like `t`. */
  ghost predicate OpensAlike(t: Tree, u: Tree, dir: Key, tag: string) {
    && (MkdirAll(t, AssetDir(dir, tag)).Ok? <==> MkdirAll(u, AssetDir(dir, tag)).Ok?)
    && (MkdirAll(t, ReleaseDir(dir, tag)).Ok? <==> MkdirAll(u, ReleaseDir(dir, tag)).Ok?)
    && forall name :: Openable(t, AssetPath(dir, tag, name)) <==> Openable(u, AssetPath(dir, tag, name))
  }

  lemma DownloadOpensAlike(t: Tree, dir: Key, tag: string, v: Upload)
    ensures OpensAlike(t, Download(t, dir, tag, v).1, dir, tag)
  {
    var u := Download(t, dir, tag, v).1;
    DownloadKeepsDirs(t, dir, tag, v);
    forall name ensures Openable(t, AssetPath(dir, tag, name)) <==> Openable(u, AssetPath(dir, tag, name)) {
      if Sanitize(name) != Sanitize(v.name) {
        DownloadSpares(t, dir, tag, v, AssetPath(dir, tag, name));
      } else {
        DownloadMarks(t, dir, tag, v);
      }
    }
  }

  /** What is at or above `dir` and no directory is so in both trees. */
  ghost predicate DirsAlike(t: Tree, u: Tree, dir: Key) {
    forall k :: k <= dir ==> ((k in t && !t[k].Dir?) <==> (k in u && !u[k].Dir?))
  }

  lemma MkdirAlike(t: Tree, u: Tree, dir: Key, sub: Key)
    requires DirsAlike(t, u, dir) && sub <= dir
    ensures MkdirAll(t, sub).Ok? <==> MkdirAll(u, sub).Ok?
  {
  }

  lemma DownloadKeepsDirs(t: Tree, dir: Key, tag: string, v: Upload)
    ensures var u := Download(t, dir, tag, v).1;
            MkdirAll(t, AssetDir(dir, tag)).Ok? <==> MkdirAll(u, AssetDir(dir, tag)).Ok?
    ensures var u := Download(t, dir, tag, v).1;
            MkdirAll(t, ReleaseDir(dir, tag)).Ok? <==> MkdirAll(u, ReleaseDir(dir, tag)).Ok?
  {
    DownloadDirsAlike(t, dir, tag, v);
    MkdirAlike(t, Download(t, dir, tag, v).1, AssetDir(dir, tag), AssetDir(dir, tag));
    MkdirAlike(t, Download(t, dir, tag, v).1, AssetDir(dir, tag), ReleaseDir(dir, tag));
  }

  lemma DownloadDirsAlike(t: Tree, dir: Key, tag: string, v: Upload)
    ensures DirsAlike(t, Download(t, dir, tag, v).1, AssetDir(dir, tag))
  {
    var u := Download(t, dir, tag, v).1;
    forall k | k <= AssetDir(dir, tag) ensures (k in t && !t[k].Dir?) <==> (k in u && !u[k].Dir?) {
      assert !(AssetPath(dir, tag, v.name) <= k);
    }
  }

  lemma AlikeDelivers(t: Tree, u: Tree, dir: Key, tag: string, v: Upload)
    requires OpensAlike(t, u, dir, tag)
    ensures Delivers(t, dir, tag, v) <==> Delivers(u, dir, tag, v)
    ensures Leaves(t, dir, tag, v) == Leaves(u, dir, tag, v)
  {
  }

  lemma OpensAlikeTwice(t: Tree, u: Tree, v: Tree, dir: Key, tag: string)
    requires OpensAlike(t, u, dir, tag) && OpensAlike(u, v, dir, tag)
    ensures OpensAlike(t, v, dir, tag)
  {
    forall name ensures Openable(t, AssetPath(dir, tag, name)) <==> Openable(v, AssetPath(dir, tag, name)) {
      assert Openable(t, AssetPath(dir, tag, name)) <==> Openable(u, AssetPath(dir, tag, name));
    }
  }

  lemma DownloadsOpenAlike(t: Tree, dir: Key, r: Release, n: nat)
    requires n <= |r.uploads|
    ensures OpensAlike(t, Downloads(t, dir, r, n).1, dir, r.tag)
  {
    var act := Downloader(dir, r.tag);
    forall v, i: nat | i < |r.uploads| && OpensAlike(t, v, dir, r.tag)
      ensures OpensAlike(t, act(v, r.uploads[i]).1, dir, r.tag)
    {
      DownloadOpensAlike(v, dir, r.tag, r.uploads[i]);
      OpensAlikeTwice(t, v, act(v, r.uploads[i]).1, dir, r.tag);
    }
    ChainKeeps(act, t, r.uploads, n, (v: Tree, i: nat) => OpensAlike(t, v, dir, r.tag));
  }

  lemma DownloadsNext(t: Tree, dir: Key, r: Release, n: nat)
    requires n < |r.uploads|
    ensures var (done, v) := Downloads(t, dir, r, n);
            if done.Err? then Downloads(t, dir, r, n + 1) == (Err, v)
            else var (size, w) := Download(v, dir, r.tag, r.uploads[n]);
              Downloads(t, dir, r, n + 1).0.Ok? == size.Ok? && Downloads(t, dir, r, n + 1).1 == w
  {
  }

  /* ---- when an export succeeds ---- */

  ghost predicate AllDeliver(t: Tree, dir: Key, r: Release, n: nat)
    requires n <= |r.uploads|
  {
    forall i :: 0 <= i < n ==> Delivers(t, dir, r.tag, r.uploads[i])
  }

  lemma DownloadOkIff(t: Tree, v: Tree, dir: Key, tag: string, u: Upload)
    requires OpensAlike(t, v, dir, tag)
    ensures Download(v, dir, tag, u).0.Ok? <==> Delivers(t, dir, tag, u)
  {
    AlikeDelivers(t, v, dir, tag, u);
    DownloadMarks(v, dir, tag, u);
  }

  lemma AllDeliverNext(t: Tree, dir: Key, r: Release, n: nat)
    requires n < |r.uploads|
    ensures AllDeliver(t, dir, r, n + 1) <==> AllDeliver(t, dir, r, n) && Delivers(t, dir, r.tag, r.uploads[n])
  {
  }

  lemma DownloadsOkIff(t: Tree, dir: Key, r: Release, n: nat)
    requires n <= |r.uploads|
    ensures Downloads(t, dir, r, n).0.Ok? <==> AllDeliver(t, dir, r, n)
  {
    var act := Downloader(dir, r.tag);
    forall v, u | OpensAlike(t, v, dir, r.tag)
      ensures (act(v, u).0.Ok? <==> Delivers(t, dir, r.tag, u)) && OpensAlike(t, act(v, u).1, dir, r.tag)
    {
      DownloadOkIff(t, v, dir, r.tag, u);
      DownloadOpensAlike(v, dir, r.tag, u);
      OpensAlikeTwice(t, v, act(v, u).1, dir, r.tag);
    }
    ChainOkIff(act, t, r.uploads, n, v => OpensAlike(t, v, dir, r.tag), u => Delivers(t, dir, r.tag, u));
  }

  /** release.json can be opened. */
  ghost predicate ManifestOpens(t: Tree, dir: Key, r: Release) {
    && r.mkdirOk && MkdirAll(t, ReleaseDir(dir, r.tag)).Ok?
    && !r.writing.NotOpened? && Openable(t, ManifestPath(dir, r.tag))
  }

  lemma ManifestOutcome(t: Tree, dir: Key, r: Release, assets: seq<Asset>)
    ensures var (ok, u) := ManifestWrite(t, dir, r, assets);
            && (ok <==> ManifestOpens(t, dir, r) && r.writing.Wrote?)
            && (!ManifestOpens(t, dir, r) ==> SameAt(t, u, ManifestPath(dir, r.tag)))
            && (ManifestOpens(t, dir, r) && !ok ==> ManifestIn(u, dir, r.tag).Err?)
  {
    var path := ManifestPath(dir, r.tag);
    assert path[|path|..] == [];
    assert !(path <= ReleaseDir(dir, r.tag));
  }

  lemma ManifestOpensAlike(t: Tree, dir: Key, r: Release)
    ensures ManifestOpens(t, dir, r) <==> ManifestOpens(Downloads(t, dir, r, |r.uploads|).1, dir, r)
  {
    DownloadsOpenAlike(t, dir, r, |r.uploads|);
    DownloadsSpareManifest(t, dir, r, |r.uploads|);
  }

  /** An export succeeds exactly if every single asset is delivered and release.json gets
      written: one failure is the failure of the whole release. */
  lemma ExportOkIff(t: Tree, dir: Key, r: Release)
    ensures Export(t, dir, r).0.Ok? <==>
              AllDeliver(t, dir, r, |r.uploads|) && ManifestOpens(t, dir, r) && r.writing.Wrote?
  {
    DownloadsOkIff(t, dir, r, |r.uploads|);
    ManifestOpensAlike(t, dir, r);
    var (assets, v) := Downloads(t, dir, r, |r.uploads|);
    if assets.Ok? {
      ManifestOutcome(v, dir, r, assets.value);
    }
  }

  /** The first failure ends it: the assets after it are not looked at, release.json is left as
      it was, and no later release is looked at either. */
  lemma FailureStopsExport(t: Tree, dir: Key, rs: seq<Release>, n: nat, i: nat)
    requires 0 < n <= |rs| && i < |rs[0].uploads|
    requires AllDeliver(t, dir, rs[0], i) && !Delivers(t, dir, rs[0].tag, rs[0].uploads[i])
    ensures Exports(t, dir, rs, n) == (Err, Downloads(t, dir, rs[0], i + 1).1)
    ensures SameAt(t, Exports(t, dir, rs, n).1, ManifestPath(dir, rs[0].tag))
  {
    var r := rs[0];
    DownloadsOkIff(t, dir, r, i + 1);
    assert !AllDeliver(t, dir, r, i + 1);
    FailureEnds(Downloader(dir, r.tag), t, r.uploads, i + 1, |r.uploads|);
    DownloadsSpareManifest(t, dir, r, i + 1);
    var act := Exporter(dir);
    assert Chain(act, t, rs, 0) == (Ok([]), t);
    assert Chain(act, t, rs, 1) == (Err, Export(t, dir, r).1);
    FailureEnds(act, t, rs, 1, n);
  }

  /* ---- what the downloads leave of each file ---- */

  /** What the first `n` downloads leave at the file for `name`: what the last of them that
      touched it left. */
  ghost function After(t: Tree, dir: Key, r: Release, n: nat, name: string): Mark
    requires n <= |r.uploads|
  {
    if n == 0 then Untouched
    else if Sanitize(r.uploads[n - 1].name) == Sanitize(name) && !Leaves(t, dir, r.tag, r.uploads[n - 1]).Untouched?
      then Leaves(t, dir, r.tag, r.uploads[n - 1])
    else After(t, dir, r, n - 1, name)
  }

  /** How many downloads are attempted: up to and including the first that fails. */
  ghost function Attempts(t: Tree, dir: Key, r: Release, from: nat): (n: nat)
    requires from <= |r.uploads| && AllDeliver(t, dir, r, from)
    ensures from <= n <= |r.uploads|
    ensures n > 0 ==> AllDeliver(t, dir, r, n - 1)
    ensures n < |r.uploads| ==> !AllDeliver(t, dir, r, n)
    decreases |r.uploads| - from
  {
    if from == |r.uploads| then from
    else if !Delivers(t, dir, r.tag, r.uploads[from]) then from + 1
    else Attempts(t, dir, r, from + 1)
  }

  lemma MarkedTwice(t: Tree, v: Tree, w: Tree, k: Key, a: Mark, b: Mark)
    requires Marked(t, v, k, a) && Marked(v, w, k, b)
    ensures Marked(t, w, k, if b.Untouched? then a else b)
  {
  }

  lemma {:induction false} DownloadsMark(t: Tree, dir: Key, r: Release, n: nat, name: string)
    requires n <= |r.uploads| && (n > 0 ==> AllDeliver(t, dir, r, n - 1))
    ensures Marked(t, Downloads(t, dir, r, n).1, AssetPath(dir, r.tag, name), After(t, dir, r, n, name))
  {
    if n > 0 {
      DownloadsMark(t, dir, r, n - 1, name);
      DownloadsOkIff(t, dir, r, n - 1);
      DownloadsNext(t, dir, r, n - 1);
      var v, u := Downloads(t, dir, r, n - 1).1, r.uploads[n - 1];
      DownloadsOpenAlike(t, dir, r, n - 1);
      AlikeDelivers(t, v, dir, r.tag, u);
      var k := AssetPath(dir, r.tag, name);
      if Sanitize(u.name) == Sanitize(name) {
        DownloadMarks(v, dir, r.tag, u);
        MarkedTwice(t, v, Download(v, dir, r.tag, u).1, k, After(t, dir, r, n - 1, name), Leaves(t, dir, r.tag, u));
      } else {
        DownloadSpares(v, dir, r.tag, u, k);
        MarkedTwice(t, v, Download(v, dir, r.tag, u).1, k, After(t, dir, r, n - 1, name), Untouched);
      }
    }
  }

  /* ---- the older release.json ---- */

  /** The asset is on disk at the listed size after the downloads, told from the tree and the
      answers before them. */
  ghost predicate StillRight(t: Tree, dir: Key, r: Release, n: nat, a: Asset)
    requires n <= |r.uploads|
  {
    match After(t, dir, r, n, a.name)
    case Untouched => OnDisk(t, AssetPath(dir, r.tag, a.name), a.size)
    case Gone => false
    case Sized(size) => size == a.size
  }

  ghost predicate AllStillRight(t: Tree, dir: Key, r: Release, assets: seq<Asset>) {
    forall i :: 0 <= i < |assets| ==> StillRight(t, dir, r, Attempts(t, dir, r, 0), assets[i])
  }

  lemma StillRightIff(t: Tree, dir: Key, r: Release, n: nat, a: Asset)
    requires n <= |r.uploads| && (n > 0 ==> AllDeliver(t, dir, r, n - 1))
    ensures StillRight(t, dir, r, n, a) <==> OnDisk(Downloads(t, dir, r, n).1, AssetPath(dir, r.tag, a.name), a.size)
  {
    DownloadsMark(t, dir, r, n, a.name);
  }

  lemma AttemptsAreAll(t: Tree, dir: Key, r: Release)
    ensures Downloads(t, dir, r, |r.uploads|).1 == Downloads(t, dir, r, Attempts(t, dir, r, 0)).1
  {
    var n := Attempts(t, dir, r, 0);
    if n < |r.uploads| {
      DownloadsOkIff(t, dir, r, n);
      FailureEnds(Downloader(dir, r.tag), t, r.uploads, n, |r.uploads|);
    }
  }

  /** A release.json that an export does not reach is truthful afterwards exactly if each asset
      it lists is still right. */
  lemma OldManifestIff(t: Tree, dir: Key, r: Release, u: Tree)
    requires SameAt(Downloads(t, dir, r, |r.uploads|).1, u, ManifestPath(dir, r.tag))
    requires forall name :: SameAt(Downloads(t, dir, r, |r.uploads|).1, u, AssetPath(dir, r.tag, name))
    ensures ManifestIn(u, dir, r.tag) == ManifestIn(t, dir, r.tag)
    ensures Truthful(u, dir, r.tag) <==>
              (ManifestIn(t, dir, r.tag).Ok? ==> AllStillRight(t, dir, r, ManifestIn(t, dir, r.tag).value.assets))
  {
    DownloadsSpareManifest(t, dir, r, |r.uploads|);
    AttemptsAreAll(t, dir, r);
    if ManifestIn(t, dir, r.tag).Ok? {
      var assets := ManifestIn(t, dir, r.tag).value.assets;
      forall i | 0 <= i < |assets|
        ensures StillRight(t, dir, r, Attempts(t, dir, r, 0), assets[i]) <==>
                OnDisk(u, AssetPath(dir, r.tag, assets[i].name), assets[i].size)
      {
        StillRightIff(t, dir, r, Attempts(t, dir, r, 0), assets[i]);
        assert SameAt(Downloads(t, dir, r, |r.uploads|).1, u, AssetPath(dir, r.tag, assets[i].name));
      }
    }
  }

  /** Exactly when release.json tells the truth after an export, first or repeated, successful
      or not, whichever asset failed: told from the tree, the names and the answers before. */
  lemma TruthfulAfterIff(t: Tree, dir: Key, r: Release)
    ensures Truthful(Export(t, dir, r).1, dir, r.tag) <==>
              if AllDeliver(t, dir, r, |r.uploads|) && ManifestOpens(t, dir, r) then
                r.writing.Wrote? ==> SizesAgree(r)
              else
                ManifestIn(t, dir, r.tag).Ok? ==> AllStillRight(t, dir, r, ManifestIn(t, dir, r.tag).value.assets)
  {
    var (assets, v) := Downloads(t, dir, r, |r.uploads|);
    var u := Export(t, dir, r).1;
    ExportOkIff(t, dir, r);
    DownloadsOkIff(t, dir, r, |r.uploads|);
    ManifestOpensAlike(t, dir, r);
    if assets.Err? {
      OldManifestIff(t, dir, r, u);
    } else {
      ManifestOutcome(v, dir, r, assets.value);
      if !ManifestOpens(t, dir, r) {
        forall name ensures SameAt(v, u, AssetPath(dir, r.tag, name)) {
          ManifestWriteSpares(v, dir, r, assets.value, name);
        }
        OldManifestIff(t, dir, r, u);
      } else if r.writing.Wrote? {
        WrittenManifestTruthfulIff(t, dir, r);
      }
    }
  }

  /* ---- which names are safe whatever happens ---- */

  function NamesOf(r: Release): seq<string> {
    seq(|r.uploads|, i requires 0 <= i < |r.uploads| => r.uploads[i].name)
  }

  predicate DistinctFiles(names: seq<string>) {
    forall i, j :: 0 <= i < j < |names| ==> Sanitize(names[i]) != Sanitize(names[j])
  }

  predicate SharesNone(listed: seq<Asset>, names: seq<string>) {
    forall i, j :: 0 <= i < |listed| && 0 <= j < |names| ==> Sanitize(listed[i].name) != Sanitize(names[j])
  }

  /** Nothing on disk stands in the way of writing these assets and the release.json. */
  ghost predicate Permits(t: Tree, dir: Key, tag: string, names: seq<string>) {
    && MkdirAll(t, AssetDir(dir, tag)).Ok? && MkdirAll(t, ReleaseDir(dir, tag)).Ok?
    && (forall name :: name in names ==> Openable(t, AssetPath(dir, tag, name)))
    && Openable(t, ManifestPath(dir, tag))
  }

  lemma {:induction false} UntouchedAfter(t: Tree, dir: Key, r: Release, n: nat, name: string)
    requires n <= |r.uploads| && forall i :: 0 <= i < |r.uploads| ==> Sanitize(r.uploads[i].name) != Sanitize(name)
    ensures After(t, dir, r, n, name) == Untouched
  {
    if n > 0 {
      UntouchedAfter(t, dir, r, n - 1, name);
    }
  }

  lemma SafeNames(t: Tree, dir: Key, r: Release)
    requires Truthful(t, dir, r.tag) && DistinctFiles(NamesOf(r))
    requires ManifestIn(t, dir, r.tag).Ok? ==> SharesNone(ManifestIn(t, dir, r.tag).value.assets, NamesOf(r))
    ensures Truthful(Export(t, dir, r).1, dir, r.tag)
  {
    TruthfulAfterIff(t, dir, r);
    var names := NamesOf(r);
    assert SizesAgree(r) by {
      forall i, j | 0 <= i < |r.uploads| && 0 <= j < |r.uploads| && SameFile(r, i, j) ensures i == j {
        assert Sanitize(names[i]) == Sanitize(names[j]);
      }
    }
    if ManifestIn(t, dir, r.tag).Ok? {
      var listed := ManifestIn(t, dir, r.tag).value.assets;
      forall i | 0 <= i < |listed| ensures StillRight(t, dir, r, Attempts(t, dir, r, 0), listed[i]) {
        forall j | 0 <= j < |r.uploads| ensures Sanitize(r.uploads[j].name) != Sanitize(listed[i].name) {
          assert Sanitize(listed[i].name) != Sanitize(names[j]);
        }
        UntouchedAfter(t, dir, r, Attempts(t, dir, r, 0), listed[i].name);
      }
    }
  }

  /** An asset of `n` bytes that arrives, and one that breaks off at once. */
  function Arriving(name: string, n: nat): Upload {
    Upload(name, Ok(Stream([seq(n, _ => 0)], false)), Io(true, true, n, true, true))
  }

  function Breaking(name: string): Upload {
    Upload(name, Ok(Stream([], true)), Io(true, true, 0, true, true))
  }

  lemma ArrivingDelivers(t: Tree, dir: Key, tag: string, name: string, n: nat)
    requires MkdirAll(t, AssetDir(dir, tag)).Ok? && Openable(t, AssetPath(dir, tag, name)) && n <= 1
    ensures Delivers(t, dir, tag, Arriving(name, n)) && Length(Arriving(name, n)) == n
    ensures !Delivers(t, dir, tag, Breaking(name)) && Leaves(t, dir, tag, Breaking(name)) == Gone
  {
    var body: seq<byte> := seq(n, _ => 0);
    assert [body][1..] == [];
    assert Total([body]) == body;
  }

  /** Asset number `at` breaks off, all before it arrive. */
  function BreakingAt(tag: string, names: seq<string>, at: nat): Release {
    Release(tag, seq(|names|, k requires 0 <= k < |names| => if k == at then Breaking(names[k]) else Arriving(names[k], 0)), true, Wrote)
  }

  /** All arrive, number `at` with one byte and the others empty. */
  function LongerAt(tag: string, names: seq<string>, at: nat): Release {
    Release(tag, seq(|names|, k requires 0 <= k < |names| => Arriving(names[k], if k == at then 1 else 0)), true, Wrote)
  }

  lemma BreakingFacts(t: Tree, dir: Key, tag: string, names: seq<string>, j: nat)
    requires Permits(t, dir, tag, names) && j < |names|
    ensures var r := BreakingAt(tag, names, j);
            && r.tag == tag && NamesOf(r) == names
            && AllDeliver(t, dir, r, j) && !Delivers(t, dir, tag, r.uploads[j]) && Leaves(t, dir, tag, r.uploads[j]) == Gone
  {
    var r := BreakingAt(tag, names, j);
    forall k | 0 <= k < j ensures Delivers(t, dir, tag, r.uploads[k]) {
      ArrivingDelivers(t, dir, tag, names[k], 0);
    }
    ArrivingDelivers(t, dir, tag, names[j], 0);
  }

  lemma AllDeliverPrefix(t: Tree, dir: Key, r: Release, n: nat, m: nat)
    requires n <= m <= |r.uploads| && AllDeliver(t, dir, r, m)
    ensures AllDeliver(t, dir, r, n)
  {
  }

  lemma AttemptsAt(t: Tree, dir: Key, r: Release, j: nat)
    requires j < |r.uploads| && AllDeliver(t, dir, r, j) && !Delivers(t, dir, r.tag, r.uploads[j])
    ensures Attempts(t, dir, r, 0) == j + 1 && !AllDeliver(t, dir, r, |r.uploads|)
  {
    var n := Attempts(t, dir, r, 0);
    if n <= j {
      AllDeliverPrefix(t, dir, r, n, j);
    }
  }

  /** An asset that broke off and was removed, and is on the older list, makes that a lie. */
  lemma GoneIsWrong(t: Tree, dir: Key, r: Release, i: nat, j: nat)
    requires ManifestIn(t, dir, r.tag).Ok? && i < |ManifestIn(t, dir, r.tag).value.assets| && j < |r.uploads|
    requires AllDeliver(t, dir, r, j) && !Delivers(t, dir, r.tag, r.uploads[j]) && Leaves(t, dir, r.tag, r.uploads[j]) == Gone
    requires Sanitize(ManifestIn(t, dir, r.tag).value.assets[i].name) == Sanitize(r.uploads[j].name)
    ensures !Truthful(Export(t, dir, r).1, dir, r.tag)
  {
    AttemptsAt(t, dir, r, j);
    TruthfulAfterIff(t, dir, r);
    assert After(t, dir, r, j + 1, ManifestIn(t, dir, r.tag).value.assets[i].name) == Gone;
    assert !StillRight(t, dir, r, Attempts(t, dir, r, 0), ManifestIn(t, dir, r.tag).value.assets[i]);
  }

  lemma SharedNameLies(t: Tree, dir: Key, tag: string, names: seq<string>, i: nat, j: nat)
    requires Permits(t, dir, tag, names) && ManifestIn(t, dir, tag).Ok?
    requires i < |ManifestIn(t, dir, tag).value.assets| && j < |names|
    requires Sanitize(ManifestIn(t, dir, tag).value.assets[i].name) == Sanitize(names[j])
    ensures var r := BreakingAt(tag, names, j);
            r.tag == tag && NamesOf(r) == names && !Truthful(Export(t, dir, r).1, dir, tag)
  {
    BreakingFacts(t, dir, tag, names, j);
    GoneIsWrong(t, dir, BreakingAt(tag, names, j), i, j);
  }

  lemma SharedFileLies(t: Tree, dir: Key, tag: string, names: seq<string>, i: nat, j: nat)
    requires Permits(t, dir, tag, names) && i < j < |names| && Sanitize(names[i]) == Sanitize(names[j])
    ensures var r := LongerAt(tag, names, j);
            r.tag == tag && NamesOf(r) == names && !Truthful(Export(t, dir, r).1, dir, tag)
  {
    var r := LongerAt(tag, names, j);
    LongerFacts(t, dir, tag, names, j);
    assert SameFile(r, i, j) && Length(r.uploads[i]) == 0 && Length(r.uploads[j]) == 1;
    assert !SizesAgree(r);
    LongerOpens(t, dir, tag, names, j);
    TruthfulAfterIff(t, dir, r);
  }

  lemma LongerFacts(t: Tree, dir: Key, tag: string, names: seq<string>, j: nat)
    requires Permits(t, dir, tag, names)
    ensures var r := LongerAt(tag, names, j);
            && AllDeliver(t, dir, r, |r.uploads|)
            && forall k :: 0 <= k < |names| ==> Length(r.uploads[k]) == if k == j then 1 else 0
  {
    var r := LongerAt(tag, names, j);
    forall k | 0 <= k < |names|
      ensures Delivers(t, dir, tag, r.uploads[k]) && Length(r.uploads[k]) == if k == j then 1 else 0
    {
      ArrivingDelivers(t, dir, tag, names[k], if k == j then 1 else 0);
    }
  }

  lemma LongerOpens(t: Tree, dir: Key, tag: string, names: seq<string>, j: nat)
    requires Permits(t, dir, tag, names)
    ensures var r := LongerAt(tag, names, j); ManifestOpens(t, dir, r) && r.writing.Wrote? && NamesOf(r) == names
  {
  }

  /** For which asset names an export can be relied on, whatever becomes of the downloads and of
      release.json: release.json tells the truth after every one of them exactly if the names
      are distinct as file names and none of them is that of an asset an older release.json
      lists. */
  lemma SafeNamesIff(t: Tree, dir: Key, tag: string, names: seq<string>)
    requires Truthful(t, dir, tag) && Permits(t, dir, tag, names)
    ensures (forall r: Release :: r.tag == tag && NamesOf(r) == names ==> Truthful(Export(t, dir, r).1, dir, tag))
       <==> DistinctFiles(names) && (ManifestIn(t, dir, tag).Ok? ==> SharesNone(ManifestIn(t, dir, tag).value.assets, names))
  {
    if !DistinctFiles(names) {
      var i, j :| 0 <= i < j < |names| && Sanitize(names[i]) == Sanitize(names[j]);
      SharedFileLies(t, dir, tag, names, i, j);
    } else if ManifestIn(t, dir, tag).Ok? && !SharesNone(ManifestIn(t, dir, tag).value.assets, names) {
      var listed := ManifestIn(t, dir, tag).value.assets;
      var i, j :| 0 <= i < |listed| && 0 <= j < |names| && Sanitize(listed[i].name) == Sanitize(names[j]);
      SharedNameLies(t, dir, tag, names, i, j);
    } else {
      forall r: Release | r.tag == tag && NamesOf(r) == names ensures Truthful(Export(t, dir, r).1, dir, tag) {
        SafeNames(t, dir, r);
      }
    }
  }

  /* ---- every release of a repository, first or repeated ---- */

  /** The right-hand side of TruthfulAfterIff. */
  ghost predicate TruthfulNext(t: Tree, dir: Key, r: Release) {
    if AllDeliver(t, dir, r, |r.uploads|) && ManifestOpens(t, dir, r) then
      r.writing.Wrote? ==> SizesAgree(r)
    else
      ManifestIn(t, dir, r.tag).Ok? ==> AllStillRight(t, dir, r, ManifestIn(t, dir, r.tag).value.assets)
  }

  /** As far as the release tagged `tag` goes, `u` is like `t`. */
  ghost predicate InsideAlike(t: Tree, u: Tree, dir: Key, tag: string) {
    && OpensAlike(t, u, dir, tag)
    && SameAt(t, u, ManifestPath(dir, tag))
    && forall name :: SameAt(t, u, AssetPath(dir, tag, name))
  }

  lemma {:induction false} AfterAlike(t: Tree, u: Tree, dir: Key, r: Release, n: nat, name: string)
    requires OpensAlike(t, u, dir, r.tag) && n <= |r.uploads|
    ensures After(t, dir, r, n, name) == After(u, dir, r, n, name)
  {
    if n > 0 {
      AfterAlike(t, u, dir, r, n - 1, name);
      AlikeDelivers(t, u, dir, r.tag, r.uploads[n - 1]);
    }
  }

  lemma AllDeliverAlike(t: Tree, u: Tree, dir: Key, r: Release, n: nat)
    requires OpensAlike(t, u, dir, r.tag) && n <= |r.uploads|
    ensures AllDeliver(t, dir, r, n) == AllDeliver(u, dir, r, n)
  {
    forall i | 0 <= i < n ensures Delivers(t, dir, r.tag, r.uploads[i]) == Delivers(u, dir, r.tag, r.uploads[i]) {
      AlikeDelivers(t, u, dir, r.tag, r.uploads[i]);
    }
  }

  lemma {:induction false} AttemptsAlike(t: Tree, u: Tree, dir: Key, r: Release, from: nat)
    requires OpensAlike(t, u, dir, r.tag) && from <= |r.uploads| && AllDeliver(t, dir, r, from) && AllDeliver(u, dir, r, from)
    ensures Attempts(t, dir, r, from) == Attempts(u, dir, r, from)
    decreases |r.uploads| - from
  {
    if from < |r.uploads| {
      AlikeDelivers(t, u, dir, r.tag, r.uploads[from]);
      if Delivers(t, dir, r.tag, r.uploads[from]) {
        AllDeliverNext(t, dir, r, from);
        AllDeliverAlike(t, u, dir, r, from + 1);
        AttemptsAlike(t, u, dir, r, from + 1);
      }
    }
  }

  lemma StillRightAlike(t: Tree, u: Tree, dir: Key, r: Release, a: Asset)
    requires InsideAlike(t, u, dir, r.tag)
    ensures StillRight(t, dir, r, Attempts(t, dir, r, 0), a) == StillRight(u, dir, r, Attempts(u, dir, r, 0), a)
  {
    AttemptsAlike(t, u, dir, r, 0);
    AfterAlike(t, u, dir, r, Attempts(t, dir, r, 0), a.name);
    assert SameAt(t, u, AssetPath(dir, r.tag, a.name));
  }

  lemma AllStillRightAlike(t: Tree, u: Tree, dir: Key, r: Release, assets: seq<Asset>)
    requires InsideAlike(t, u, dir, r.tag)
    ensures AllStillRight(t, dir, r, assets) == AllStillRight(u, dir, r, assets)
  {
    forall i | 0 <= i < |assets|
      ensures StillRight(t, dir, r, Attempts(t, dir, r, 0), assets[i]) == StillRight(u, dir, r, Attempts(u, dir, r, 0), assets[i])
    {
      StillRightAlike(t, u, dir, r, assets[i]);
    }
  }

  lemma AlikeIsAsTruthful(t: Tree, u: Tree, dir: Key, tag: string)
    requires InsideAlike(t, u, dir, tag)
    ensures Truthful(t, dir, tag) <==> Truthful(u, dir, tag)
  {
    if ManifestIn(t, dir, tag).Ok? {
      var assets := ManifestIn(t, dir, tag).value.assets;
      forall i | 0 <= i < |assets| ensures SameAt(t, u, AssetPath(dir, tag, assets[i].name)) {
      }
    }
  }

  lemma TruthfulNextAlike(t: Tree, u: Tree, dir: Key, r: Release)
    requires InsideAlike(t, u, dir, r.tag)
    ensures TruthfulNext(t, dir, r) <==> TruthfulNext(u, dir, r)
    ensures Truthful(t, dir, r.tag) <==> Truthful(u, dir, r.tag)
  {
    AllDeliverAlike(t, u, dir, r, |r.uploads|);
    AlikeIsAsTruthful(t, u, dir, r.tag);
    if ManifestIn(t, dir, r.tag).Ok? {
      AllStillRightAlike(t, u, dir, r, ManifestIn(t, dir, r.tag).value.assets);
    }
  }

  lemma DownloadsDirsAlike(t: Tree, dir: Key, r: Release, n: nat)
    requires n <= |r.uploads|
    ensures DirsAlike(t, Downloads(t, dir, r, n).1, dir)
  {
    var act := Downloader(dir, r.tag);
    forall v, i: nat | i < |r.uploads| && DirsAlike(t, v, dir) ensures DirsAlike(t, act(v, r.uploads[i]).1, dir) {
      DownloadDirsAlike(v, dir, r.tag, r.uploads[i]);
      assert dir <= AssetDir(dir, r.tag);
    }
    ChainKeeps(act, t, r.uploads, n, (v: Tree, i: nat) => DirsAlike(t, v, dir));
  }

  lemma ManifestDirsAlike(t: Tree, dir: Key, r: Release, assets: seq<Asset>)
    ensures DirsAlike(t, ManifestWrite(t, dir, r, assets).1, dir)
  {
    var u := ManifestWrite(t, dir, r, assets).1;
    forall k | k <= dir ensures (k in t && !t[k].Dir?) <==> (k in u && !u[k].Dir?) {
      assert !(ManifestPath(dir, r.tag) <= k);
    }
  }

  lemma ExportDirsAlike(t: Tree, dir: Key, r: Release)
    ensures DirsAlike(t, Export(t, dir, r).1, dir)
  {
    DownloadsDirsAlike(t, dir, r, |r.uploads|);
    var (assets, v) := Downloads(t, dir, r, |r.uploads|);
    if assets.Ok? {
      ManifestDirsAlike(v, dir, r, assets.value);
    }
  }

  /** An export leaves a release whose tag is sanitized differently as it was. */
  lemma ExportInsideAlike(t: Tree, dir: Key, r: Release, tag: string)
    requires Sanitize(tag) != Sanitize(r.tag)
    ensures InsideAlike(t, Export(t, dir, r).1, dir, tag)
  {
    var u := Export(t, dir, r).1;
    ExportDirsAlike(t, dir, r);
    forall k | |dir| < |k| && k[|dir|] == Sanitize(tag) ensures SameAt(t, u, k) {
      ExportStaysInside(t, dir, r, k);
    }
    ReleaseDirsAlike(t, u, dir, tag);
    MkdirAlike(t, u, AssetDir(dir, tag), AssetDir(dir, tag));
    MkdirAlike(t, u, AssetDir(dir, tag), ReleaseDir(dir, tag));
    assert ManifestPath(dir, tag)[|dir|] == Sanitize(tag);
    forall name ensures SameAt(t, u, AssetPath(dir, tag, name)) {
      assert AssetPath(dir, tag, name)[|dir|] == Sanitize(tag);
    }
  }

  lemma ReleaseDirsAlike(t: Tree, u: Tree, dir: Key, tag: string)
    requires DirsAlike(t, u, dir)
    requires forall k :: |dir| < |k| && k[|dir|] == Sanitize(tag) ==> SameAt(t, u, k)
    ensures DirsAlike(t, u, AssetDir(dir, tag))
  {
    forall k | k <= AssetDir(dir, tag) ensures (k in t && !t[k].Dir?) <==> (k in u && !u[k].Dir?) {
      AtOrBelow(dir, tag, k);
      if !(k <= dir) {
        assert SameAt(t, u, k);
      }
    }
  }

  lemma AtOrBelow(dir: Key, tag: string, k: Key)
    requires k <= AssetDir(dir, tag)
    ensures k <= dir || (|dir| < |k| && k[|dir|] == Sanitize(tag))
  {
  }

  lemma ExportAside(t: Tree, dir: Key, r: Release, other: Release)
    requires Sanitize(r.tag) != Sanitize(other.tag)
    ensures var u := Export(t, dir, other).1;
            Truthful(u, dir, r.tag) == Truthful(t, dir, r.tag) && TruthfulNext(u, dir, r) == TruthfulNext(t, dir, r)
  {
    ExportInsideAlike(t, dir, other, r.tag);
    TruthfulNextAlike(t, Export(t, dir, other).1, dir, r);
  }

  lemma ExportDecides(t: Tree, dir: Key, r: Release)
    ensures Truthful(Export(t, dir, r).1, dir, r.tag) == TruthfulNext(t, dir, r)
  {
    TruthfulAfterIff(t, dir, r);
  }

  /** Over all releases of a repository, exported before or not, and wherever the export stops:
      the release.json of each tells the truth exactly if it does after its own export, as told
      from the tree before all of them, or, if its turn did not come, if it did before. */
  lemma TruthfulOverallIff(t: Tree, dir: Key, rs: seq<Release>, n: nat, i: nat)
    requires TagsApart(rs) && n <= |rs| && i < |rs|
    ensures Truthful(Exports(t, dir, rs, n).1, dir, rs[i].tag) <==>
              if i < n && Exports(t, dir, rs, i).0.Ok? then TruthfulNext(t, dir, rs[i]) else Truthful(t, dir, rs[i].tag)
  {
    var act, r := Exporter(dir), rs[i];
    forall u ensures Truthful(act(u, r).1, dir, r.tag) == TruthfulNext(u, dir, r) {
      ExportDecides(u, dir, r);
    }
    forall u, k: nat | k < |rs| && k != i
      ensures Truthful(act(u, rs[k]).1, dir, r.tag) == Truthful(u, dir, r.tag) && TruthfulNext(act(u, rs[k]).1, dir, r) == TruthfulNext(u, dir, r)
    {
      ExportAside(u, dir, r, rs[k]);
    }
    OneDecides(act, t, rs, n, i, u => Truthful(u, dir, r.tag), u => TruthfulNext(u, dir, r));
  }

  /** In particular, safe names are safe for a whole repository. */
  lemma SafeNamesOverall(t: Tree, dir: Key, rs: seq<Release>, n: nat, i: nat)
    requires TagsApart(rs) && n <= |rs| && i < |rs| && Truthful(t, dir, rs[i].tag) && DistinctFiles(NamesOf(rs[i]))
    requires ManifestIn(t, dir, rs[i].tag).Ok? ==> SharesNone(ManifestIn(t, dir, rs[i].tag).value.assets, NamesOf(rs[i]))
    ensures Truthful(Exports(t, dir, rs, n).1, dir, rs[i].tag)
  {
    SafeNames(t, dir, rs[i]);
    TruthfulAfterIff(t, dir, rs[i]);
    TruthfulOverallIff(t, dir, rs, n, i);
  }

  /* ---- two inputs ---- */

  /** What a release leaves that stops at its asset `j`, which is removed. */
  lemma StoppedAt(t: Tree, dir: Key, r: Release, j: nat)
    requires j < |r.uploads| && AllDeliver(t, dir, r, j) && !Delivers(t, dir, r.tag, r.uploads[j])
    requires Leaves(t, dir, r.tag, r.uploads[j]) == Gone
    ensures Export(t, dir, r).0.Err? && Export(t, dir, r).1 == Downloads(t, dir, r, j + 1).1
    ensures AssetPath(dir, r.tag, r.uploads[j].name) !in Export(t, dir, r).1
    ensures SameAt(t, Export(t, dir, r).1, ManifestPath(dir, r.tag))
  {
    AttemptsAt(t, dir, r, j);
    AttemptsAreAll(t, dir, r);
    DownloadsOkIff(t, dir, r, |r.uploads|);
    DownloadsMark(t, dir, r, j + 1, r.uploads[j].name);
    assert After(t, dir, r, j + 1, r.uploads[j].name) == Gone;
    DownloadsSpareManifest(t, dir, r, |r.uploads|);
  }

  ghost function ExportedOnce(): (t: Tree)
    ensures ManifestIn(t, [], "v1") == Ok(Manifest("v1", [Asset("a", 0)])) && Truthful(t, [], "v1")
    ensures Permits(t, [], "v1", ["b", "a"])
  {
    var manifest, asset := ManifestPath([], "v1"), AssetPath([], "v1", "a");
    assert |manifest| == 2 && |asset| == 3 && manifest[1] == "release.json";
    assert |AssetDir([], "v1")| == 2 && AssetDir([], "v1")[1] == "assets" && |ReleaseDir([], "v1")| == 1;
    map[manifest := File(FILE_MODE, Json(Manifest("v1", [Asset("a", 0)]))), asset := File(FILE_MODE, Raw([]))]
  }

  /** A release exported before with one asset "a" of no bytes, now with an asset "b" in front;
      this time "b" arrives and "a" breaks off. The older release.json stays and lists "a",
      which is gone. */
  lemma SecondAssetBreaks() returns (t: Tree, r: Release)
    ensures ManifestIn(t, [], "v1") == Ok(Manifest("v1", [Asset("a", 0)])) && Truthful(t, [], "v1")
    ensures r.tag == "v1" && NamesOf(r) == ["b", "a"]
    ensures var u := Export(t, [], r).1;
            && ManifestIn(u, [], "v1") == ManifestIn(t, [], "v1")
            && AssetPath([], "v1", "a") !in u && !Truthful(u, [], "v1")
  {
    t := ExportedOnce();
    r := BreakingAt("v1", ["b", "a"], 1);
    SharedNameLies(t, [], "v1", ["b", "a"], 0, 1);
    BreakingFacts(t, [], "v1", ["b", "a"], 1);
    StoppedAt(t, [], r, 1);
  }

  const TOO_LONG: nat := MAX_RELEASE_ASSET_SIZE + 1

  function Oversized(name: string): Upload {
    Upload(name, Ok(Stream([seq(TOO_LONG, _ => 0)], false)), Io(true, true, TOO_LONG, true, true))
  }

  lemma OversizedIsRemoved(t: Tree, dir: Key, tag: string, name: string)
    requires MkdirAll(t, AssetDir(dir, tag)).Ok? && Openable(t, AssetPath(dir, tag, name))
    ensures Length(Oversized(name)) == TOO_LONG
    ensures !Delivers(t, dir, tag, Oversized(name)) && Leaves(t, dir, tag, Oversized(name)) == Gone
  {
    var body: seq<byte> := seq(TOO_LONG, _ => 0);
    assert [body][1..] == [] && Total([body]) == body;
  }

  /** One asset over the cap, a good one after it, and a second release: neither the good asset
      nor either release.json is ever written. */
  lemma OversizedAssetStopsAll() returns (rs: seq<Release>)
    ensures rs == [Release("v1", [Oversized("big"), Arriving("good", 0)], true, Wrote), Release("v2", [], true, Wrote)]
    ensures Length(Oversized("big")) > MAX_RELEASE_ASSET_SIZE && Delivers(EMPTY, [], "v1", Arriving("good", 0))
    ensures var (done, u) := Exports(EMPTY, [], rs, 2);
            && done.Err? && ManifestPath([], "v1") !in u && AssetPath([], "v1", "big") !in u
            && AssetPath([], "v1", "good") !in u && ManifestPath([], "v2") !in u
  {
    var r := Release("v1", [Oversized("big"), Arriving("good", 0)], true, Wrote);
    rs := [r, Release("v2", [], true, Wrote)];
    ArrivingDelivers(EMPTY, [], "v1", "good", 0);
    OversizedIsRemoved(EMPTY, [], "v1", "big");
    StoppedAt(EMPTY, [], r, 0);
    FailureStopsExport(EMPTY, [], rs, 2, 0);
    OthersUntouched(EMPTY, [], r);
  }

  lemma OthersUntouched(t: Tree, dir: Key, r: Release)
    requires |r.uploads| == 2 && r.tag == "v1" && r.uploads[0].name == "big"
    ensures SameAt(t, Downloads(t, dir, r, 1).1, AssetPath(dir, "v1", "good"))
    ensures SameAt(t, Downloads(t, dir, r, 1).1, ManifestPath(dir, "v2"))
  {
    assert "big"[0] != "good"[0];
    DownloadsMark(t, dir, r, 1, "good");
    assert After(t, dir, r, 1, "good") == Untouched;
    assert "v1"[1] != "v2"[1];
    DownloadsStayInside(t, dir, r, 1, ManifestPath(dir, "v2"));
  }
}
