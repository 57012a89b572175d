/** The comparison at the heart of `RemoteMachine.PublishDirectory`: the local and remote file
    listings (relative path to MD5 hash) are compared, obsolete remote files are deleted, and new
    or changed files are shipped in one archive. Hashing, SSH, SFTP and the archive itself are
    outside this model; what remains is which files go where and which commands follow. */
module PublishDiff {
  import opened Wrappers
  import opened Seqs
  import opened Strings

  /** A `Dictionary<string, string>` from relative path to hash; `order` is the order in which its
      keys are enumerated. */
  datatype Listing = Listing(order: seq<string>, hashes: map<string, string>)

  /** The dictionary's own invariant: each key enumerated once, and exactly the keys. */
  predicate WellFormed(l: Listing) {
    NoDup(l.order) && (forall p | p in l.order :: p in l.hashes) && (forall p | p in l.hashes :: p in l.order)
  }

  /** The four lists built by the comparison loops, in the order files were met. */
  datatype Diff = Diff(created: seq<string>, changed: seq<string>, removed: seq<string>, kept: seq<string>)

  const DsStore := ".DS_Store"

  /** Where the local-file loop puts a file; `Skipped` is a new `.DS_Store`. */
  datatype Verdict = Created | Changed | Kept | Skipped

  /** The branches of the local-file loop. */
  function Classify(local: Listing, remote: Listing, f: string): Verdict
    requires f in local.hashes
  {
    if f in remote.hashes then
      if remote.hashes[f] == local.hashes[f] then Kept else Changed
    else if !EndsWithIgnoreCase(f, DsStore) then Created
    else Skipped
  }

  predicate AllLocal(local: Listing, files: seq<string>) {
    forall f | f in files :: f in local.hashes
  }

  /** The files of `files` the local-file loop puts under verdict `v`, in order. */
  function Sift(local: Listing, remote: Listing, files: seq<string>, v: Verdict): seq<string>
    requires AllLocal(local, files)
  {
    if |files| == 0 then []
    else
      var last := files[|files| - 1];
      Sift(local, remote, files[..|files| - 1], v) + (if Classify(local, remote, last) == v then [last] else [])
  }

  /** The remote-file loop: the remote files missing locally, in order. */
  function Missing(local: Listing, files: seq<string>): seq<string> {
    if |files| == 0 then []
    else
      var last := files[|files| - 1];
      Missing(local, files[..|files| - 1]) + (if last !in local.hashes then [last] else [])
  }

  /** The four lists as the two loops leave them. */
  function Diffed(local: Listing, remote: Listing): Diff
    requires WellFormed(local)
  {
    Diff(
      Sift(local, remote, local.order, Created),
      Sift(local, remote, local.order, Changed),
      Missing(local, remote.order),
      Sift(local, remote, local.order, Kept))
  }

  /** The two `foreach` loops of the comparison: every local file is kept, changed or created (or
      skipped when it is a new `.DS_Store`); every remote file missing locally is removed. */
  method Compare(local: Listing, remote: Listing) returns (d: Diff)
    requires WellFormed(local)
    ensures d == Diffed(local, remote)
  {
    var created, changed, kept := CompareLocal(local, remote);
    var removed := CompareRemote(local, remote);
    d := Diff(created, changed, removed, kept);
  }

  /** The loop over the local files. */
  method CompareLocal(local: Listing, remote: Listing) returns (created: seq<string>, changed: seq<string>, kept: seq<string>)
    requires WellFormed(local)
    ensures created == Sift(local, remote, local.order, Created)
    ensures changed == Sift(local, remote, local.order, Changed)
    ensures kept == Sift(local, remote, local.order, Kept)
  {
    created, changed, kept := [], [], [];
    var i := 0;
    while i < |local.order|
      invariant 0 <= i <= |local.order|
      invariant AllLocal(local, local.order[..i])
      invariant created == Sift(local, remote, local.order[..i], Created)
      invariant changed == Sift(local, remote, local.order[..i], Changed)
      invariant kept == Sift(local, remote, local.order[..i], Kept)
    {
      var file := local.order[i];
      SiftStep(local, remote, local.order, i);
      if file in remote.hashes {
        if remote.hashes[file] == local.hashes[file] {
          kept := kept + [file];
        } else {
          changed := changed + [file];
        }
      } else {
        if !EndsWithIgnoreCase(file, DsStore) {
          created := created + [file];
        }
      }
      i := i + 1;
    }
    assert local.order[..i] == local.order;
  }

  /** One more turn of the local-file loop. */
  lemma SiftStep(local: Listing, remote: Listing, files: seq<string>, i: int)
    requires AllLocal(local, files) && 0 <= i < |files|
    ensures AllLocal(local, files[..i]) && AllLocal(local, files[..i + 1]) && files[i] in local.hashes
    ensures forall v ::
              Sift(local, remote, files[..i + 1], v) ==
              Sift(local, remote, files[..i], v) + (if Classify(local, remote, files[i]) == v then [files[i]] else [])
  {
    assert files[..i + 1][..i] == files[..i];
    assert files[i] in files;
  }

  /** The loop over the remote files. */
  method CompareRemote(local: Listing, remote: Listing) returns (removed: seq<string>)
    ensures removed == Missing(local, remote.order)
  {
    removed := [];
    var j := 0;
    while j < |remote.order|
      invariant 0 <= j <= |remote.order|
      invariant removed == Missing(local, remote.order[..j])
    {
      var file := remote.order[j];
      assert remote.order[..j + 1][..j] == remote.order[..j];
      if file !in local.hashes {
        removed := removed + [file];
      }
      j := j + 1;
    }
    assert remote.order[..j] == remote.order;
  }

  /** A file is sifted under `v` exactly when it is one of the files and its verdict is `v`. */
  lemma {:induction false} SiftMembers(local: Listing, remote: Listing, files: seq<string>, v: Verdict, f: string)
    requires AllLocal(local, files)
    ensures f in Sift(local, remote, files, v) <==> f in files && Classify(local, remote, f) == v
  {
    if |files| > 0 {
      var init := files[..|files| - 1];
      assert files == init + [files[|files| - 1]];
      SiftMembers(local, remote, init, v, f);
    }
  }

  /** Sifting a list without duplicates gives one without duplicates. */
  lemma {:induction false} SiftDistinct(local: Listing, remote: Listing, files: seq<string>, v: Verdict)
    requires AllLocal(local, files) && NoDup(files)
    ensures NoDup(Sift(local, remote, files, v))
  {
    if |files| > 0 {
      var init := files[..|files| - 1];
      var last := files[|files| - 1];
      assert files == init + [last];
      SiftDistinct(local, remote, init, v);
      forall k | 0 <= k < |init|
        ensures init[k] != last
      {
        assert files[k] != files[|files| - 1];
      }
      SiftMembers(local, remote, init, v, last);
    }
  }

  lemma {:induction false} MissingMembers(local: Listing, files: seq<string>, f: string)
    ensures f in Missing(local, files) <==> f in files && f !in local.hashes
  {
    if |files| > 0 {
      var init := files[..|files| - 1];
      assert files == init + [files[|files| - 1]];
      MissingMembers(local, init, f);
    }
  }

  lemma {:induction false} MissingDistinct(local: Listing, files: seq<string>)
    requires NoDup(files)
    ensures NoDup(Missing(local, files))
  {
    if |files| > 0 {
      var init := files[..|files| - 1];
      var last := files[|files| - 1];
      assert files == init + [last];
      MissingDistinct(local, init);
      forall k | 0 <= k < |init|
        ensures init[k] != last
      {
        assert files[k] != files[|files| - 1];
      }
      MissingMembers(local, init, last);
    }
  }

  /** What each list holds, in terms of the two dictionaries: created files are local only (and
      not `.DS_Store`), changed and kept files are on both sides with different or equal hashes,
      removed files are remote only. */
  lemma DiffMembers(local: Listing, remote: Listing, f: string)
    requires WellFormed(local) && WellFormed(remote)
    ensures var d := Diffed(local, remote);
      && (f in d.created <==> f in local.hashes && f !in remote.hashes && !EndsWithIgnoreCase(f, DsStore))
      && (f in d.changed <==> f in local.hashes && f in remote.hashes && remote.hashes[f] != local.hashes[f])
      && (f in d.kept <==> f in local.hashes && f in remote.hashes && remote.hashes[f] == local.hashes[f])
      && (f in d.removed <==> f in remote.hashes && f !in local.hashes)
  {
    SiftMembers(local, remote, local.order, Created, f);
    SiftMembers(local, remote, local.order, Changed, f);
    SiftMembers(local, remote, local.order, Kept, f);
    MissingMembers(local, remote.order, f);
  }

  /** No file is in two lists, and the kept and changed files are exactly those on both sides. */
  lemma DiffPartition(local: Listing, remote: Listing, f: string)
    requires WellFormed(local) && WellFormed(remote)
    ensures var d := Diffed(local, remote);
      && !(f in d.created && f in d.changed) && !(f in d.created && f in d.kept)
      && !(f in d.created && f in d.removed) && !(f in d.changed && f in d.kept)
      && !(f in d.changed && f in d.removed) && !(f in d.kept && f in d.removed)
      && (f in d.kept || f in d.changed <==> f in local.hashes && f in remote.hashes)
  {
    DiffMembers(local, remote, f);
  }

  /** Each list names a file at most once. */
  lemma DiffDistinct(local: Listing, remote: Listing)
    requires WellFormed(local) && WellFormed(remote)
    ensures var d := Diffed(local, remote);
      NoDup(d.created) && NoDup(d.changed) && NoDup(d.kept) && NoDup(d.removed)
  {
    SiftDistinct(local, remote, local.order, Created);
    SiftDistinct(local, remote, local.order, Changed);
    SiftDistinct(local, remote, local.order, Kept);
    MissingDistinct(local, remote.order);
  }

  /** What the publish does after comparing: the SSH commands in the order they run, the entries
      of the uploaded archive when there is one, and whether anything was published. */
  datatype Plan = Plan(commands: seq<string>, archive: Option<seq<string>>, changed: bool)

  /** `"remoteDir/file"`, quoted for the shell. */
  function QuotedPath(remoteDirectory: string, f: string): string {
    "\"" + remoteDirectory + "/" + f + "\""
  }

  function QuotedPaths(remoteDirectory: string, fs: seq<string>): (r: seq<string>)
    ensures |r| == |fs|
    ensures forall i :: 0 <= i < |fs| ==> r[i] == QuotedPath(remoteDirectory, fs[i])
  {
    if |fs| == 0 then [] else [QuotedPath(remoteDirectory, fs[0])] + QuotedPaths(remoteDirectory, fs[1..])
  }

  function DeleteCommand(remoteDirectory: string, removed: seq<string>): string {
    "sudo rm " + Join(" ", QuotedPaths(remoteDirectory, removed))
  }

  /** The commands that unpack the uploaded archive `zipName` and then delete it. */
  function UnpackCommands(remoteDirectory: string, zipName: string): seq<string> {
    ["sudo unzip -o " + remoteDirectory + "/" + zipName + " -d " + remoteDirectory,
     "sudo rm " + remoteDirectory + "/" + zipName]
  }

  /** The actions after the comparison. Obsolete files are deleted only when asked to and when
      there are any; the archive holds the created files followed by the changed ones and is sent
      only when that list is not empty; the publish changed something exactly when one of the two
      happened. */
  function Publish(d: Diff, removeRemoteFiles: bool, remoteDirectory: string, zipName: string): (p: Plan)
    ensures var deletes := removeRemoteFiles && |d.removed| > 0;
      && (p.archive.Some? <==> |d.created| > 0 || |d.changed| > 0)
      && (p.archive.Some? ==> p.archive.value == d.created + d.changed)
      && p.commands ==
           (if deletes then [DeleteCommand(remoteDirectory, d.removed)] else [])
           + (if p.archive.Some? then UnpackCommands(remoteDirectory, zipName) else [])
      && (p.changed <==> deletes || p.archive.Some?)
      && (p.changed <==> |p.commands| > 0)
  {
    var deletes := removeRemoteFiles && |d.removed| > 0;
    var deleteCommands := if deletes then [DeleteCommand(remoteDirectory, d.removed)] else [];
    var uploads := d.created + d.changed;
    if |uploads| > 0 then
      Plan(deleteCommands + UnpackCommands(remoteDirectory, zipName), Some(uploads), true)
    else
      Plan(deleteCommands, None, deletes)
  }

  /** The delete command names every removed file by its quoted remote path. */
  lemma DeleteCommandNamesRemoved(remoteDirectory: string, removed: seq<string>, i: int)
    requires 0 <= i < |removed|
    ensures Contains(DeleteCommand(remoteDirectory, removed), QuotedPath(remoteDirectory, removed[i]))
  {
    var parts := QuotedPaths(remoteDirectory, removed);
    assert IsSubstringAt(parts[i], QuotedPath(remoteDirectory, removed[i]), 0);
    ContainsInJoin(" ", parts, i, QuotedPath(remoteDirectory, removed[i]));
    ContainsInContext("sudo rm ", Join(" ", parts), "", QuotedPath(remoteDirectory, removed[i]));
    assert "sudo rm " + Join(" ", parts) + "" == DeleteCommand(remoteDirectory, removed);
  }

  /** Publishing a directory onto an identical remote copy does nothing, and every file is kept. */
  lemma InSyncPublishesNothing(local: Listing, remote: Listing, removeRemoteFiles: bool, remoteDirectory: string, zipName: string)
    requires WellFormed(local) && WellFormed(remote) && local.hashes == remote.hashes
    ensures !Publish(Diffed(local, remote), removeRemoteFiles, remoteDirectory, zipName).changed
    ensures Diffed(local, remote).kept == local.order
  {
    NoneSifted(local, remote, local.order, Created);
    NoneSifted(local, remote, local.order, Changed);
    NoneMissing(local, remote.order);
    AllKept(local, remote, local.order);
  }

  lemma {:induction false} AllKept(local: Listing, remote: Listing, files: seq<string>)
    requires AllLocal(local, files) && local.hashes == remote.hashes
    ensures Sift(local, remote, files, Kept) == files
  {
    if |files| > 0 {
      var init := files[..|files| - 1];
      assert files == init + [files[|files| - 1]];
      AllKept(local, remote, init);
    }
  }

  lemma {:induction false} NoneSifted(local: Listing, remote: Listing, files: seq<string>, v: Verdict)
    requires AllLocal(local, files) && local.hashes == remote.hashes && v != Kept
    ensures Sift(local, remote, files, v) == []
  {
    if |files| > 0 {
      var init := files[..|files| - 1];
      assert files == init + [files[|files| - 1]];
      NoneSifted(local, remote, init, v);
    }
  }

  lemma {:induction false} NoneMissing(local: Listing, files: seq<string>)
    requires AllLocal(local, files)
    ensures Missing(local, files) == []
  {
    if |files| > 0 {
      var init := files[..|files| - 1];
      assert files == init + [files[|files| - 1]];
      NoneMissing(local, init);
    }
  }
}
