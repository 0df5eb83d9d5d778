/** The coverage classifier: the walk loop of `codeowners_enforcer`
    (src/main.rs:58-75) as specification functions over the walker's entry
    sequence. The walker itself (glob matching, `.codeownersignore` files,
    directory pruning) is the `ignore` crate's and is given as the entry
    sequence it yields; the manifest lookup is given as an ownership index. */
module Classification {
  import opened Wrappers
  import opened Paths

  type Owner = string

  /** `codeowners.of(path)`: the owners of the matching manifest rule, or
      None when no rule matches the path. */
  type OwnershipIndex = Path -> Option<seq<Owner>>

  /** The file type a walk entry reports; only Directory is `is_dir()`. */
  datatype FileType = Directory | RegularFile | Symlink

  /** One item of the walk: an error (dropped by `filter_map(Result::ok)`),
      or a visited entry with its path and its file type, which the walker
      may fail to report (then `unwrap()` fails the run). */
  datatype Entry = Unreadable | Visited(path: Path, fileType: Option<FileType>)

  /** An entry that is looked up in the ownership index: a visited entry of
      known type that is not a directory. */
  predicate IsCandidate(e: Entry)
  {
    e.Visited? && e.fileType.Some? && e.fileType.value != Directory
  }

  /** The paths of the candidate entries, in walk order. */
  function Candidates(entries: seq<Entry>): seq<Path>
  {
    if entries == [] then []
    else
      var e := entries[|entries| - 1];
      Candidates(entries[..|entries| - 1]) + (if IsCandidate(e) then [e.path] else [])
  }

  /** The paths among `paths` that the index gives no owners, in order. */
  function UnownedFiles(paths: seq<Path>, index: OwnershipIndex): seq<Path>
  {
    if paths == [] then []
    else
      var p := paths[|paths| - 1];
      UnownedFiles(paths[..|paths| - 1], index) + (if index(p).None? then [p] else [])
  }

  /** The path of the first visited entry whose file type is unavailable, at
      which the loop stops the run; None when every type is known. */
  function FirstUntyped(entries: seq<Entry>): Option<Path>
  {
    if entries == [] then None
    else match FirstUntyped(entries[..|entries| - 1])
      case Some(p) => Some(p)
      case None =>
        var e := entries[|entries| - 1];
        if e.Visited? && e.fileType.None? then Some(e.path) else None
  }

  /** A path is a candidate exactly when some non-directory visited entry of
      known type carries it. */
  lemma {:induction false} CandidatesMembership(entries: seq<Entry>, p: Path)
    ensures p in Candidates(entries) <==>
              exists i :: 0 <= i < |entries| && IsCandidate(entries[i]) && entries[i].path == p
  {
    if entries != [] {
      var n := |entries| - 1;
      CandidatesMembership(entries[..n], p);
      assert forall i :: 0 <= i < n ==> entries[..n][i] == entries[i];
    }
  }

  /** A path is listed as unowned exactly when it is among the given paths
      and the index gives it no owners. */
  lemma {:induction false} UnownedFilesMembership(paths: seq<Path>, index: OwnershipIndex, p: Path)
    ensures p in UnownedFiles(paths, index) <==> p in paths && index(p).None?
  {
    if paths != [] {
      var n := |paths| - 1;
      UnownedFilesMembership(paths[..n], index, p);
      assert paths == paths[..n] + [paths[n]];
    }
  }

  /** The walk's candidates of a concatenated walk are those of each part in
      turn: walk order is kept. */
  lemma {:induction false} CandidatesAppend(a: seq<Entry>, b: seq<Entry>)
    ensures Candidates(a + b) == Candidates(a) + Candidates(b)
  {
    if b == [] {
      assert a + b == a;
    } else {
      var n := |b| - 1;
      CandidatesAppend(a, b[..n]);
      assert (a + b)[..|a + b| - 1] == a + b[..n];
    }
  }

  /** Filtering a concatenation filters each part in turn: the unowned list
      keeps the order of the candidates. */
  lemma {:induction false} UnownedFilesAppend(a: seq<Path>, b: seq<Path>, index: OwnershipIndex)
    ensures UnownedFiles(a + b, index) == UnownedFiles(a, index) + UnownedFiles(b, index)
  {
    if b == [] {
      assert a + b == a;
    } else {
      var n := |b| - 1;
      UnownedFilesAppend(a, b[..n], index);
      assert (a + b)[..|a + b| - 1] == a + b[..n];
    }
  }

  /** Error entries and directory entries contribute nothing: removing one
      from the walk leaves the unowned list unchanged. */
  lemma {:induction false} NonCandidateContributesNothing(a: seq<Entry>, e: Entry, b: seq<Entry>, index: OwnershipIndex)
    requires !IsCandidate(e)
    ensures UnownedFiles(Candidates(a + [e] + b), index) == UnownedFiles(Candidates(a + b), index)
  {
    CandidatesAppend(a + [e], b);
    CandidatesAppend(a, [e]);
    CandidatesAppend(a, b);
    assert [e][..0] == [];
    assert Candidates([e]) == [];
    assert Candidates(a + [e]) == Candidates(a);
  }

  /** The unowned list of a walk is the concatenation of the unowned lists
      of its parts, in walk order. */
  lemma {:induction false} UnownedInWalkOrder(a: seq<Entry>, b: seq<Entry>, index: OwnershipIndex)
    ensures UnownedFiles(Candidates(a + b), index)
         == UnownedFiles(Candidates(a), index) + UnownedFiles(Candidates(b), index)
  {
    CandidatesAppend(a, b);
    UnownedFilesAppend(Candidates(a), Candidates(b), index);
  }

  /** Classification is total and exclusive: a path is listed as unowned
      exactly when a non-directory entry of the walk carries it and the index
      gives it no owners; so every candidate either has owners or is listed,
      never both, and a path seen only as a directory is never listed. */
  lemma {:induction false} ClassificationTotalAndExclusive(entries: seq<Entry>, index: OwnershipIndex, p: Path)
    ensures p in UnownedFiles(Candidates(entries), index) <==>
              (exists i :: 0 <= i < |entries| && IsCandidate(entries[i]) && entries[i].path == p)
              && index(p).None?
  {
    UnownedFilesMembership(Candidates(entries), index, p);
    CandidatesMembership(entries, p);
  }

  /** The candidates of a prefix of the walk are a prefix of its candidates:
      a longer walk only adds candidates at the end. */
  lemma {:induction false} CandidatesPrefix(entries: seq<Entry>, k: nat)
    requires k <= |entries|
    ensures Candidates(entries[..k]) <= Candidates(entries)
  {
    CandidatesAppend(entries[..k], entries[k..]);
    assert entries[..k] + entries[k..] == entries;
  }

  /** Once an entry of unavailable type has been met, no later entry changes
      which entry fails the run. */
  lemma {:induction false} FirstUntypedPrefix(entries: seq<Entry>, k: nat)
    requires k <= |entries| && FirstUntyped(entries[..k]).Some?
    ensures FirstUntyped(entries) == FirstUntyped(entries[..k])
  {
    if k < |entries| {
      var n := |entries| - 1;
      assert entries[..n][..k] == entries[..k];
      FirstUntypedPrefix(entries[..n], k);
    } else {
      assert entries[..k] == entries;
    }
  }

  /** FirstUntyped names the first entry of unavailable type. */
  lemma {:induction false} FirstUntypedIsFirst(entries: seq<Entry>)
    ensures FirstUntyped(entries).None? <==>
              forall i :: 0 <= i < |entries| && entries[i].Visited? ==> entries[i].fileType.Some?
    ensures FirstUntyped(entries).Some? ==>
              exists i :: 0 <= i < |entries| && entries[i].Visited? && entries[i].fileType.None?
                && entries[i].path == FirstUntyped(entries).value
                && forall j :: 0 <= j < i && entries[j].Visited? ==> entries[j].fileType.Some?
  {
    if entries != [] {
      var n := |entries| - 1;
      var init := entries[..n];
      FirstUntypedIsFirst(init);
      assert forall i :: 0 <= i < n ==> init[i] == entries[i];
      if FirstUntyped(init).Some? {
        var i :| 0 <= i < n && init[i].Visited? && init[i].fileType.None?
          && init[i].path == FirstUntyped(init).value
          && forall j :: 0 <= j < i && init[j].Visited? ==> init[j].fileType.Some?;
        assert entries[i].path == FirstUntyped(entries).value;
      } else if entries[n].Visited? && entries[n].fileType.None? {
        assert entries[n].path == FirstUntyped(entries).value;
      }
    }
  }

  /** The walk loop (src/main.rs:60-75): skip error items and directories,
      look every other path up in the index and collect those without
      owners, in walk order; an entry whose file type is unavailable fails
      the run. Returns the unowned paths (or the failing path) and the paths
      looked up, in order: all candidates on success, and on failure exactly
      the candidates before the first entry of unavailable type. */
  method ClassifyWalk(entries: seq<Entry>, index: OwnershipIndex)
    returns (r: Result<seq<Path>, Path>, queried: seq<Path>)
    ensures r.Err? <==> FirstUntyped(entries).Some?
    ensures r.Err? ==> r.error == FirstUntyped(entries).value
    ensures r.Ok? ==> r.value == UnownedFiles(Candidates(entries), index)
    ensures queried <= Candidates(entries)
    ensures r.Ok? ==> queried == Candidates(entries)
    ensures r.Err? ==>
              exists i :: 0 <= i < |entries| && entries[i].Visited? && entries[i].fileType.None?
                && entries[i].path == r.error
                && FirstUntyped(entries[..i]).None? && queried == Candidates(entries[..i])
  {
    var unowned: seq<Path> := [];
    queried := [];
    var k := 0;
    while k < |entries|
      invariant 0 <= k <= |entries|
      invariant FirstUntyped(entries[..k]).None?
      invariant unowned == UnownedFiles(Candidates(entries[..k]), index)
      invariant queried == Candidates(entries[..k])
    {
      var entry := entries[k];
      assert entries[..k + 1][..k] == entries[..k];
      if entry.Visited? {
        if entry.fileType.None? {
          FirstUntypedPrefix(entries, k + 1);
          CandidatesPrefix(entries, k);
          r := Err(entry.path);
          return;
        }
        if entry.fileType.value != Directory {
          assert (queried + [entry.path])[..|queried|] == queried;
          queried := queried + [entry.path];
          if index(entry.path).None? {
            unowned := unowned + [entry.path];
          }
        }
      }
      assert Candidates(entries[..k + 1]) == queried;
      k := k + 1;
    }
    assert entries[..k] == entries;
    r := Ok(unowned);
  }
}
