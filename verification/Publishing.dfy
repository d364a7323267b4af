/**
  Publishing is verified before anything moves: no file of a transfer reaches the inbox
  unless every file of it passed its length and digest checks, and the inbox only grows.
 */
module Publishing {
  import opened Prelude
  import opened Manifest
  import opened Receiver
  import opened Runs
  import Names

  // ----- what a passed check means -----

  /** The part of `f` is on disk with its declared length and, if declared, its digest. */
  ghost predicate Verified(w: World, hash: Hash, id: string, f: FileRow) {
    var path := PartPath(id, f.fileId);
    && path.Some? && path.value in w.parts
    && |w.parts[path.value]| == f.Size()
    && (f.digest.Some? ==> hash(w.parts[path.value]) == f.digest.value)
  }

  /** The transfer is complete and every file of it is verified. */
  ghost predicate AllVerified(w: World, hash: Hash, id: string) {
    TransferComplete(w.db, id) && forall f :: f in w.db[id].files ==> Verified(w, hash, id, f)
  }

  lemma {:induction false} CheckMeansVerified(w: World, hash: Hash, id: string, files: seq<FileRow>)
    ensures CheckFiles(w, hash, id, files).None? <==> forall f :: f in files ==> Verified(w, hash, id, f)
  {
    if files != [] {
      CheckMeansVerified(w, hash, id, files[1..]);
      assert files == [files[0]] + files[1..];
      assert CheckFile(w, hash, id, files[0]).None? <==> Verified(w, hash, id, files[0]);
    }
  }

  // ----- one call to publish -----

  ghost predicate Extends(inbox: map<string, Bytes>, inbox': map<string, Bytes>) {
    forall n :: n in inbox ==> n in inbox' && inbox'[n] == inbox[n]
  }

  ghost predicate Shrinks(parts: map<Path, Bytes>, parts': map<Path, Bytes>) {
    forall p :: p in parts' ==> p in parts && parts'[p] == parts[p]
  }

  lemma PublishOneKeeps(w: World, id: string, f: FileRow)
    ensures var w' := PublishFile(w, id, f).0;
            && Extends(w.inbox, w'.inbox) && Shrinks(w.parts, w'.parts)
            && forall n :: n in w'.inbox && n !in w.inbox ==>
                 PartPath(id, f.fileId).Some? && PartPath(id, f.fileId).value in w.parts &&
                 w'.inbox[n] == w.parts[PartPath(id, f.fileId).value]
  {
    Names.AllocateFresh(Taken(w.inbox), f.fileName);
  }

  /** The part that file `f` of transfer `id` was staged in holds `content`. */
  ghost predicate StagedAs(w: World, id: string, f: FileRow, content: Bytes) {
    var path := PartPath(id, f.fileId);
    path.Some? && path.value in w.parts && w.parts[path.value] == content
  }

  ghost predicate FromSome(w: World, id: string, files: seq<FileRow>, content: Bytes) {
    exists f :: f in files && StagedAs(w, id, f, content)
  }

  /** However far publishing gets, old entries stay and new entries are staged parts. */
  lemma {:induction false} PublishKeeps(w: World, id: string, files: seq<FileRow>)
    ensures var w' := PublishFiles(w, id, files).0;
            && Extends(w.inbox, w'.inbox) && Shrinks(w.parts, w'.parts)
            && forall n :: n in w'.inbox && n !in w.inbox ==> FromSome(w, id, files, w'.inbox[n])
    decreases |files|
  {
    if files != [] {
      PublishOneKeeps(w, id, files[0]);
      var (w1, error) := PublishFile(w, id, files[0]);
      if error.None? {
        PublishKeeps(w1, id, files[1..]);
        var w' := PublishFiles(w, id, files).0;
        forall n | n in w'.inbox && n !in w.inbox ensures FromSome(w, id, files, w'.inbox[n]) {
          if n in w1.inbox {
            assert StagedAs(w, id, files[0], w'.inbox[n]);
          } else {
            var f :| f in files[1..] && StagedAs(w1, id, f, w'.inbox[n]);
            assert StagedAs(w, id, f, w'.inbox[n]) && f in files;
          }
        }
      }
    }
  }

  /** The inbox names a publish hands out, in order. */
  ghost function Targets(w: World, id: string, files: seq<FileRow>): seq<string>
    decreases |files|
  {
    if files == [] || PublishFile(w, id, files[0]).1.Some? then []
    else
      [Names.Allocate(Taken(w.inbox), files[0].fileName).value]
      + Targets(PublishFile(w, id, files[0]).0, id, files[1..])
  }

  lemma AllocatedNotReserved(inbox: map<string, Bytes>, fileName: string)
    ensures Names.Allocate(Taken(inbox), fileName).Ok? ==> Names.Allocate(Taken(inbox), fileName).value !in Taken(map[])
  {
    Names.AllocateFresh(Taken(inbox), fileName);
  }

  lemma {:induction false} TargetsHead(w: World, id: string, files: seq<FileRow>)
    requires Targets(w, id, files) != []
    ensures files != [] && PublishFile(w, id, files[0]).1.None?
    ensures Names.Allocate(Taken(w.inbox), files[0].fileName).Ok?
  {
  }

  lemma {:induction false} TargetFree(w: World, id: string, files: seq<FileRow>, i: nat)
    requires i < |Targets(w, id, files)|
    ensures Targets(w, id, files)[i] !in Taken(map[])
    decreases |files|
  {
    TargetsHead(w, id, files);
    PublishSplit(w, id, files);
    var first := Names.Allocate(Taken(w.inbox), files[0].fileName).value;
    var rest := Targets(PublishFile(w, id, files[0]).0, id, files[1..]);
    AllocatedNotReserved(w.inbox, files[0].fileName);
    if i > 0 {
      TargetFree(PublishFile(w, id, files[0]).0, id, files[1..], i - 1);
      assert ([first] + rest)[i] == rest[i - 1];
    }
  }

  /** Nothing is moved over a dot entry or the staging directory. */
  lemma TargetsNotReserved(w: World, id: string, files: seq<FileRow>, i: nat)
    requires i < |Targets(w, id, files)|
    ensures Targets(w, id, files)[i] !in {".", "..", ".incoming"}
  {
    TargetFree(w, id, files, i);
    ReservedNames();
  }

  lemma ReservedNames()
    ensures {".", "..", ".incoming"} <= Taken(map[])
  {
  }

  /** Each file gets its own name or one of its numbered alternatives. */
  lemma {:induction false} TargetsNamed(w: World, id: string, files: seq<FileRow>, i: nat)
    requires i < |Targets(w, id, files)|
    ensures i < |files| && Names.NamedAfter(Targets(w, id, files)[i], files[i].fileName)
    decreases |files|
  {
    if i == 0 {
      Names.NativeSearch(Taken(w.inbox), files[0].fileName);
    } else {
      TargetsNamed(PublishFile(w, id, files[0]).0, id, files[1..], i - 1);
    }
  }

  ghost predicate NoRepeats<T>(s: seq<T>) {
    forall i, j :: 0 <= i < j < |s| ==> s[i] != s[j]
  }

  /** One new entry per file, holding that file's part, under a name that did not exist. */
  ghost predicate Delivered(w: World, id: string, files: seq<FileRow>, w': World, names: seq<string>) {
    && |names| == |files| && NoRepeats(names)
    && w'.inbox.Keys == w.inbox.Keys + (set n | n in names)
    && Extends(w.inbox, w'.inbox)
    && forall i :: 0 <= i < |files| ==>
         && names[i] !in w.inbox && names[i] in w'.inbox
         && StagedAs(w, id, files[i], w'.inbox[names[i]])
  }

  lemma PublishOneDelivers(w: World, id: string, f: FileRow)
    requires PublishFile(w, id, f).1.None?
    ensures var w' := PublishFile(w, id, f).0; var name := Names.Allocate(Taken(w.inbox), f.fileName).value;
            && name !in w.inbox && w'.inbox.Keys == w.inbox.Keys + {name}
            && StagedAs(w, id, f, w'.inbox[name])
            && !StagedAs(w', id, f, w'.inbox[name])
            && Extends(w.inbox, w'.inbox) && Shrinks(w.parts, w'.parts)
  {
    Names.AllocateFresh(Taken(w.inbox), f.fileName);
  }

  /**
    A publish delivers a prefix of the files, each from its own part, and the whole list
    exactly when it ends without an error.
   */
  lemma {:induction false} PublishDelivers(w: World, id: string, files: seq<FileRow>)
    ensures var names := Targets(w, id, files);
            && |names| <= |files|
            && (PublishFiles(w, id, files).1.None? <==> |names| == |files|)
            && Delivered(w, id, files[..|names|], PublishFiles(w, id, files).0, names)
    decreases |files|
  {
    if files != [] && PublishFile(w, id, files[0]).1.None? {
      var w1 := PublishFile(w, id, files[0]).0;
      PublishOneDelivers(w, id, files[0]);
      PublishDelivers(w1, id, files[1..]);
      PublishSplit(w, id, files);
      var names := Targets(w, id, files);
      assert names[1..] == Targets(w1, id, files[1..]);
      assert files[1..][..|names| - 1] == files[..|names|][1..];
      DeliveredCons(w, id, files[..|names|], w1, PublishFiles(w1, id, files[1..]).0, names);
    }
  }

  lemma PublishSplit(w: World, id: string, files: seq<FileRow>)
    requires files != [] && PublishFile(w, id, files[0]).1.None?
    ensures PublishFiles(w, id, files) == PublishFiles(PublishFile(w, id, files[0]).0, id, files[1..])
    ensures Targets(w, id, files) == [Names.Allocate(Taken(w.inbox), files[0].fileName).value]
                                     + Targets(PublishFile(w, id, files[0]).0, id, files[1..])
  {
  }

  lemma DeliveredCons(w: World, id: string, files: seq<FileRow>, w1: World, w': World, names: seq<string>)
    requires files != [] && names != []
    requires Extends(w.inbox, w1.inbox) && Shrinks(w.parts, w1.parts)
    requires names[0] !in w.inbox && w1.inbox.Keys == w.inbox.Keys + {names[0]}
    requires StagedAs(w, id, files[0], w1.inbox[names[0]])
    requires Delivered(w1, id, files[1..], w', names[1..])
    ensures Delivered(w, id, files, w', names)
  {
    forall i | 1 <= i < |files|
      ensures names[i] !in w1.inbox && names[i] in w'.inbox && StagedAs(w, id, files[i], w'.inbox[names[i]])
    {
      assert names[1..][i - 1] == names[i] && files[1..][i - 1] == files[i];
      assert StagedAs(w1, id, files[i], w'.inbox[names[i]]);
    }
    assert (set n | n in names) == {names[0]} + (set n | n in names[1..]) by {
      assert names == [names[0]] + names[1..];
    }
    assert NoRepeats(names) by {
      forall i, j | 0 <= i < j < |names| ensures names[i] != names[j] {
        if i > 0 { assert names[1..][i - 1] != names[1..][j - 1]; }
      }
    }
  }

  lemma PublishedWasStaged(w: World, id: string, files: seq<FileRow>, j: nat)
    requires PublishFiles(w, id, files).1.None? && j < |files|
    ensures PartPath(id, files[j].fileId).Some? && PartPath(id, files[j].fileId).value in w.parts
  {
    PublishDelivers(w, id, files);
    assert files[..|files|] == files;
    assert StagedAs(w, id, files[j], PublishFiles(w, id, files).0.inbox[Targets(w, id, files)[j]]);
  }

  /**
    Files whose ids clean to the same path cannot all be published: the first move takes the
    part away, so a publish without an error had pairwise distinct parts.
   */
  lemma {:induction false} PublishNeedsDistinctParts(w: World, id: string, files: seq<FileRow>)
    requires PublishFiles(w, id, files).1.None?
    ensures forall i, j :: 0 <= i < j < |files| ==> PartPath(id, files[i].fileId) != PartPath(id, files[j].fileId)
    decreases |files|
  {
    if files != [] {
      var w1 := PublishFile(w, id, files[0]).0;
      PublishNeedsDistinctParts(w1, id, files[1..]);
      forall j | 0 < j < |files| ensures PartPath(id, files[0].fileId) != PartPath(id, files[j].fileId) {
        assert files[1..][j - 1] == files[j];
        PublishedWasStaged(w1, id, files[1..], j - 1);
      }
      forall i, j | 0 <= i < j < |files| ensures PartPath(id, files[i].fileId) != PartPath(id, files[j].fileId) {
        if i > 0 { assert files[1..][i - 1] == files[i] && files[1..][j - 1] == files[j]; }
      }
    }
  }

  // ----- one finish -----

  /** A finish without an error has delivered every file and completed the transfer. */
  lemma SuccessDelivers(w: World, hash: Hash, id: string)
    requires Finish(w, hash, id).1.None?
    ensures var w' := Finish(w, hash, id).0;
            && id in w.db && id in w'.db && w'.db[id].state == Completed
            && Delivered(w, id, w.db[id].files, w', Targets(w, id, w.db[id].files))
  {
    var files := w.db[id].files;
    PublishDelivers(w, id, files);
    assert files[..|files|] == files;
  }

  /** Nothing moves unless every file was verified, and what moves is a verified part. */
  lemma FinishMovesVerified(w: World, hash: Hash, id: string)
    ensures var w' := Finish(w, hash, id).0;
            && Extends(w.inbox, w'.inbox) && Shrinks(w.parts, w'.parts)
            && ((w'.inbox != w.inbox || w'.parts != w.parts) ==> AllVerified(w, hash, id))
            && (forall n :: n in w'.inbox && n !in w.inbox ==>
                  id in w.db && FromSome(w, id, w.db[id].files, w'.inbox[n]))
  {
    if TransferComplete(w.db, id) {
      CheckMeansVerified(w, hash, id, w.db[id].files);
      PublishKeeps(w, id, w.db[id].files);
    }
  }

  /**
    `finish_transfer` from any state: nothing moves unless every file was verified; what
    moves is a verified part; success delivers every file exactly once and completes the
    transfer.
   */
  lemma FinishVerifiesFirst(w: World, hash: Hash, id: string)
    ensures var (w', error) := Finish(w, hash, id);
            && Extends(w.inbox, w'.inbox) && Shrinks(w.parts, w'.parts)
            && ((w'.inbox != w.inbox || w'.parts != w.parts) ==> AllVerified(w, hash, id))
            && (forall n :: n in w'.inbox && n !in w.inbox ==>
                  id in w.db && FromSome(w, id, w.db[id].files, w'.inbox[n]))
            && (error.None? ==>
                  && AllVerified(w, hash, id) && w'.db[id].state == Completed
                  && Delivered(w, id, w.db[id].files, w', Targets(w, id, w.db[id].files)))
  {
    FinishMovesVerified(w, hash, id);
    if Finish(w, hash, id).1.None? {
      SuccessDelivers(w, hash, id);
      CheckMeansVerified(w, hash, id, w.db[id].files);
    }
  }

  /**
    The state a finish leaves behind: too early it marks the transfer interrupted; with a wrong
    length or digest it marks it failed; with all files moved it marks it completed; with a
    missing part or a name it cannot give it marks nothing. Before the moves it touches no file,
    and rows and other transfers never change.
   */
  lemma FinishMarks(w: World, hash: Hash, id: string)
    requires id in w.db
    ensures var (w', error) := Finish(w, hash, id);
            && w'.db.Keys == w.db.Keys && w'.db[id].files == w.db[id].files && w'.db[id].chunks == w.db[id].chunks
            && (forall other :: other in w.db && other != id ==> w'.db[other] == w.db[other])
            && (!TransferComplete(w.db, id) ==>
                  && error == Some(BytesMissing) && w'.db[id].state == Interrupted
                  && w'.parts == w.parts && w'.inbox == w.inbox)
            && (TransferComplete(w.db, id) && !AllVerified(w, hash, id) ==>
                  && error.Some? && w'.parts == w.parts && w'.inbox == w.inbox
                  && w'.db[id].state == if error == Some(FileMissing) then w.db[id].state else Failed)
            && (AllVerified(w, hash, id) ==> w'.db[id].state == if error.None? then Completed else w.db[id].state)
  {
    CheckMeansVerified(w, hash, id, w.db[id].files);
  }

  lemma {:induction false} FirstCheckFails(w: World, hash: Hash, id: string, files: seq<FileRow>, k: nat)
    requires k < |files| && !Verified(w, hash, id, files[k])
    requires forall i :: 0 <= i < k ==> Verified(w, hash, id, files[i])
    ensures CheckFiles(w, hash, id, files) == CheckFile(w, hash, id, files[k])
  {
    if k > 0 {
      assert Verified(w, hash, id, files[0]);
      forall i | 0 <= i < k - 1 ensures Verified(w, hash, id, files[1..][i]) { assert files[1..][i] == files[i + 1]; }
      FirstCheckFails(w, hash, id, files[1..], k - 1);
    }
  }

  /**
    Which failure a finish reports and records, by the first file, in stored order, that is not
    verified: a missing part changes nothing; a part of another length, and otherwise one with
    another digest, marks the transfer failed.
   */
  lemma FinishFailsAt(w: World, hash: Hash, id: string, k: nat)
    requires TransferComplete(w.db, id) && k < |w.db[id].files|
    requires !Verified(w, hash, id, w.db[id].files[k])
    requires forall i :: 0 <= i < k ==> Verified(w, hash, id, w.db[id].files[i])
    ensures var f := w.db[id].files[k];
            var path := PartPath(id, f.fileId);
            var (w', error) := Finish(w, hash, id);
            if path.None? || path.value !in w.parts then w' == w && error == Some(FileMissing)
            else
              && w' == w.(db := w.db[id := w.db[id].(state := Failed)])
              && error == Some(if |w.parts[path.value]| != f.Size() then FileSizeMismatch else FileHashMismatch)
  {
    FirstCheckFails(w, hash, id, w.db[id].files, k);
  }

  // ----- exactly when a finish succeeds -----

  /** Every name, in order, can be given an inbox name although the earlier ones took theirs. */
  predicate Allocates(taken: set<string>, files: seq<FileRow>)
    decreases |files|
  {
    files == [] ||
    (Names.Allocate(taken, files[0].fileName).Ok? &&
     Allocates(taken + {Names.Allocate(taken, files[0].fileName).value}, files[1..]))
  }

  ghost predicate Staged(w: World, id: string, f: FileRow) {
    PartPath(id, f.fileId).Some? && PartPath(id, f.fileId).value in w.parts
  }

  ghost predicate DistinctParts(id: string, files: seq<FileRow>) {
    forall i, j :: 0 <= i < j < |files| ==> PartPath(id, files[i].fileId) != PartPath(id, files[j].fileId)
  }

  /** With every part present, publishing succeeds iff the names can be allocated and no two files share a part. */
  lemma {:induction false} PublishSucceedsIff(w: World, id: string, files: seq<FileRow>)
    requires forall f :: f in files ==> Staged(w, id, f)
    ensures PublishFiles(w, id, files).1.None? <==> Allocates(Taken(w.inbox), files) && DistinctParts(id, files)
    decreases |files|
  {
    if PublishFiles(w, id, files).1.None? { PublishNeedsDistinctParts(w, id, files); }
    if files != [] && DistinctParts(id, files) && Names.Allocate(Taken(w.inbox), files[0].fileName).Ok? {
      assert Staged(w, id, files[0]);
      var w1 := PublishFile(w, id, files[0]).0;
      var rest := files[1..];
      forall f | f in rest ensures Staged(w1, id, f) {
        var i :| 0 <= i < |rest| && rest[i] == f;
        assert PartPath(id, files[0].fileId) != PartPath(id, files[i + 1].fileId);
        assert Staged(w, id, f);
      }
      PublishSucceedsIff(w1, id, rest);
      assert Taken(w1.inbox) == Taken(w.inbox) + {Names.Allocate(Taken(w.inbox), files[0].fileName).value};
    }
  }

  /**
    `finish_transfer` succeeds exactly when every byte is recorded, every file passes its
    checks, no two files share a part, and every file can be given a name.
   */
  lemma FinishSucceedsIff(w: World, hash: Hash, id: string)
    ensures Finish(w, hash, id).1.None? <==>
              && TransferComplete(w.db, id)
              && (forall f :: f in w.db[id].files ==> Verified(w, hash, id, f))
              && DistinctParts(id, w.db[id].files)
              && Allocates(Taken(w.inbox), w.db[id].files)
  {
    if TransferComplete(w.db, id) {
      CheckMeansVerified(w, hash, id, w.db[id].files);
      if CheckFiles(w, hash, id, w.db[id].files).None? { PublishSucceedsIff(w, id, w.db[id].files); }
    }
  }

  /** Usable names always allocate while the inbox leaves room for them. */
  lemma {:induction false} UsableNamesAllocate(taken: set<string>, files: seq<FileRow>)
    requires forall f :: f in files ==> Names.SafeFileName(f.fileName).Ok?
    requires |taken| + |files| <= Names.NATIVE_LIMIT + 1
    ensures Allocates(taken, files)
    decreases |files|
  {
    if files != [] {
      Names.NativeSearch(taken, files[0].fileName);
      UsableNamesAllocate(taken + {Names.Allocate(taken, files[0].fileName).value}, files[1..]);
    }
  }

  // ----- exactly when the moves are all or none -----

  /** A finish of a verified transfer is the publish of its files. */
  lemma VerifiedPublishes(w: World, hash: Hash, id: string)
    requires AllVerified(w, hash, id)
    ensures var (w', error) := Finish(w, hash, id);
            && w.db[id].files != [] && Verified(w, hash, id, w.db[id].files[0])
            && (w'.inbox, error) == (PublishFiles(w, id, w.db[id].files).0.inbox, PublishFiles(w, id, w.db[id].files).1)
  {
    CheckMeansVerified(w, hash, id, w.db[id].files);
    assert w.db[id].files[0] in w.db[id].files;
  }

  /** The first move happens exactly when the first file can be given a name. */
  lemma FirstMove(w: World, id: string, files: seq<FileRow>)
    requires files != [] && Staged(w, id, files[0])
    ensures PublishFiles(w, id, files).0.inbox == w.inbox <==> Names.Allocate(Taken(w.inbox), files[0].fileName).Err?
  {
    if Names.Allocate(Taken(w.inbox), files[0].fileName).Ok? {
      PublishOneDelivers(w, id, files[0]);
      PublishKeeps(PublishFile(w, id, files[0]).0, id, files[1..]);
    }
  }

  /**
    The checks are all-or-none but the moves are not. A finish of a verified transfer moves all
    of its files or none exactly when its first file cannot be given a name, or all can and no
    two share a part.
   */
  lemma AllOrNoneIff(w: World, hash: Hash, id: string)
    requires AllVerified(w, hash, id)
    ensures var files := w.db[id].files; var w' := Finish(w, hash, id).0;
            (w'.inbox == w.inbox || Delivered(w, id, files, w', Targets(w, id, files))) <==>
            || Names.Allocate(Taken(w.inbox), files[0].fileName).Err?
            || (DistinctParts(id, files) && Allocates(Taken(w.inbox), files))
  {
    var files := w.db[id].files;
    VerifiedPublishes(w, hash, id);
    FirstMove(w, id, files);
    FinishSucceedsIff(w, hash, id);
    PublishDelivers(w, id, files);
    assert files[..|files|] == files;
  }

  lemma {:induction false} AllocatedNamesUsable(taken: set<string>, files: seq<FileRow>, k: nat)
    requires Allocates(taken, files) && k < |files|
    ensures Names.SafeFileName(files[k].fileName).Ok?
    decreases |files|
  {
    if k > 0 { AllocatedNamesUsable(taken + {Names.Allocate(taken, files[0].fileName).value}, files[1..], k - 1); }
  }

  /** In particular, a refused name anywhere after a first file that could be named leaves a part of the files moved. */
  lemma RefusedNameLeavesPrefix(w: World, hash: Hash, id: string, k: nat)
    requires AllVerified(w, hash, id) && k < |w.db[id].files|
    requires Names.SafeFileName(w.db[id].files[k].fileName).Err?
    ensures var files := w.db[id].files; var (w', error) := Finish(w, hash, id);
            && error.Some?
            && (Names.Allocate(Taken(w.inbox), files[0].fileName).Ok? ==>
                  w'.inbox != w.inbox && !Delivered(w, id, files, w', Targets(w, id, files)))
  {
    if Allocates(Taken(w.inbox), w.db[id].files) { AllocatedNamesUsable(Taken(w.inbox), w.db[id].files, k); }
    FinishSucceedsIff(w, hash, id);
    AllOrNoneIff(w, hash, id);
  }

  // ----- whole runs -----

  /** An event that tries to publish transfer `id`. */
  predicate Publishes(e: Event, id: string) {
    (e.Finishing? && e.id == id) || (e.FinishingTorn? && e.id == id)
  }

  /** At step `i`, a finish of a fully verified transfer moved the part `content` out to the name `n`. */
  ghost predicate MovedAt(w: World, hash: Hash, es: seq<Event>, i: nat, id: string, n: string, content: Bytes) {
    && i < |es| && Publishes(es[i], id)
    && var before, after := Run(w, hash, es[..i]), Run(w, hash, es[..i + 1]);
       && AllVerified(before, hash, id) && FromSome(before, id, before.db[id].files, content)
       && n !in before.inbox && n in after.inbox && after.inbox[n] == content
  }

  lemma StepPublishes(w: World, hash: Hash, e: Event)
    ensures var w' := Step(w, hash, e);
            && Extends(w.inbox, w'.inbox)
            && forall n :: n in w'.inbox && n !in w.inbox ==>
                 (e.Finishing? || e.FinishingTorn?) && AllVerified(w, hash, e.id) &&
                 FromSome(w, e.id, w.db[e.id].files, w'.inbox[n])
  {
    match e
    case Accepting(_, _, _) =>
    case Receiving(_, _, _, _, _) =>
    case ReceivingTorn(_, _, _, _, _, _) =>
    case Finishing(id) => FinishVerifiesFirst(w, hash, id);
    case FinishingTorn(id, k) =>
      if id in w.db {
        var files := w.db[id].files;
        CheckMeansVerified(w, hash, id, files);
        var some := files[..Min(k, |files|)];
        PublishKeeps(w, id, some);
        forall c | FromSome(w, id, some, c) ensures FromSome(w, id, files, c) {
          var f :| f in some && StagedAs(w, id, f, c);
          assert f in files;
        }
      }
  }

  lemma {:induction false} InboxOnlyGrows(w: World, hash: Hash, es: seq<Event>)
    ensures Extends(w.inbox, Run(w, hash, es).inbox)
  {
    if es != [] {
      InboxOnlyGrows(w, hash, es[..|es| - 1]);
      StepPublishes(Run(w, hash, es[..|es| - 1]), hash, es[|es| - 1]);
    }
  }

  lemma MovedEarlier(w: World, hash: Hash, es: seq<Event>, m: nat, i: nat, id: string, n: string, content: Bytes)
    requires m <= |es| && MovedAt(w, hash, es[..m], i, id, n, content)
    ensures MovedAt(w, hash, es, i, id, n, content)
  {
    assert es[..m][..i] == es[..i] && es[..m][..i + 1] == es[..i + 1];
  }

  /**
    Over any run, with any chunks and any crashes: no inbox entry is ever changed or removed,
    and an entry that was not there at the start is the part of a file that was moved out by
    a finish, under that name, at a moment when every file of its transfer had its declared
    length and digest.
   */
  lemma {:induction false} PublishedWasVerified(w: World, hash: Hash, es: seq<Event>, n: string)
      returns (i: nat, id: string)
    requires n in Run(w, hash, es).inbox && n !in w.inbox
    ensures Extends(w.inbox, Run(w, hash, es).inbox)
    ensures MovedAt(w, hash, es, i, id, n, Run(w, hash, es).inbox[n])
  {
    InboxOnlyGrows(w, hash, es);
    var m := |es| - 1;
    var before := Run(w, hash, es[..m]);
    StepPublishes(before, hash, es[m]);
    if n in before.inbox {
      i, id := PublishedWasVerified(w, hash, es[..m], n);
      MovedEarlier(w, hash, es, m, i, id, n, before.inbox[n]);
    } else {
      i, id := m, es[m].id;
      assert es[..m + 1] == es;
    }
  }
}
