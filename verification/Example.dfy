/** One honest world, to show that the assumptions of the theorems can be met together. */
module Example {
  import opened Names
  import opened Trees
  import opened Worker
  import opened Machine
  import opened Soundness
  import opened Upkeep
  import opened Jobs
  import opened Safety
  import Mirror

  const LAYOUT := Layout(["d"], ["x"])
  const REPOS: seq<Repo> := [Repo("a/b", false, false)]
  const SETUP := Setup(LAYOUT, ArchiveAll, [], [], 1)

  /** A remote whose clone is the tree `clone`, whose updates change nothing and which has no
      refs for LFS to look at. */
  function RemoteOf(clone: Tree): Mirror.Remote {
    Mirror.Remote(true, Mirror.Removed, Mirror.Attempt(true, clone), true,
                  (u: Tree) => Mirror.Attempt(true, u),
                  Mirror.LfsTools((u: Tree) => Ok(0), (u: Tree) => Mirror.NoMatch, false, (u: Tree) => Mirror.Attempt(true, u)))
  }

  function EnvOf(clone: Tree): Env {
    Env(RemoteOf(clone), true, true, (k: nat) => true, (k: nat, u: Tree) => Mirror.Attempt(true, u), true, true, 0, true, true)
  }

  lemma NameIsTame()
    ensures Tame("a/b")
  {
    SplitConcat("a", "b");
    SplitSlashless("a");
    SplitSlashless("b");
    assert "a/b" == "a" + "/" + "b";
    assert Front(Split("a/b")) == ["a"];
    forall slot: Slot ensures !HasSuffix("a", slot.Suffix()) {
      assert |slot.Suffix()| > 1;
    }
  }

  /** Whatever tree gets cloned, as long as it is one: the run is a proper one, and an empty
      disk is a sound start for it. */
  lemma HonestWorld(clone: Tree)
    requires WellFormed(clone) && IsDir(clone, [])
    ensures Proper(SETUP, REPOS, (p: string) => EnvOf(clone), (u: Tree) => [] in u && u[[]].Dir?)
    ensures WellFormed(EMPTY) && AllMean(LAYOUT, (u: Tree) => [] in u && u[[]].Dir?, EMPTY)
  {
    NameIsTame();
    assert LAYOUT.dest[0] != LAYOUT.arch[0];
  }
}
