/**
 * The remediation engine: classify a file, fetch its correct content, and
 * overwrite it, recording each step's outcome on a result; and the walk that
 * applies this to every file under a directory.
 */
module Remediation {
  import opened Wrappers
  import opened FileSystem
  import opened Identifier
  import RemediationSource

  /** The file identifier, as a function from path to identity. */
  type Classifier = Path -> FileIdentity
  /** A remediation source, as a function from identity to correct content. */
  type Source = FileIdentity -> Option<Bytes>

  /** The outcome of remediating one path. */
  datatype RemediationResult = RemediationResult(
    path: Path,
    identity: FileIdentity,
    known: bool,
    remediated: bool,
    targetPath: Path)
  {
    /** The truth value of a result (`__bool__`). */
    predicate Succeeded()
      ensures Succeeded() <==> remediated
    {
      remediated
    }
  }

  /** A fresh result, with the constructor's defaults: both flags false, the target defaulting to the path. */
  function NewResult(path: Path, identity: FileIdentity, targetPath: Option<Path>): (r: RemediationResult)
    ensures r.path == path && r.identity == identity
    ensures !r.known && !r.remediated && !r.Succeeded()
    ensures targetPath.None? ==> r.targetPath == path
    ensures targetPath.Some? ==> r.targetPath == targetPath.value
  {
    RemediationResult(path, identity, false, false, targetPath.GetOr(path))
  }

  /** The content the remediator obtains for `path`: none when the file is unidentified. */
  function Fetch(identify: Classifier, source: Source, path: Path): Option<Bytes> {
    var identity := identify(path);
    if identity.fileType == Unknown then None else source(identity)
  }

  /** Whether `path` ends up remediated: content is obtained and the write succeeds. */
  predicate Remediable(identify: Classifier, source: Source, unwritable: set<Path>, path: Path) {
    Fetch(identify, source, path).Some? && path !in unwritable
  }

  /** The result `remediate_file(path, targetPath)` returns, by stage of the pipeline. */
  function FileOutcome(identify: Classifier, source: Source, unwritable: set<Path>,
                       path: Path, targetPath: Option<Path>): (r: RemediationResult)
    ensures r.path == path && r.identity == identify(path)
    ensures r.targetPath == targetPath.GetOr(path)
    ensures identify(path).fileType == Unknown ==> !r.known && !r.remediated
    ensures identify(path).fileType != Unknown && source(identify(path)).None? ==> !r.known && !r.remediated
    ensures identify(path).fileType != Unknown && source(identify(path)).Some? ==>
              r.known && (r.remediated <==> path !in unwritable)
    ensures r.remediated ==> r.known
    ensures r.Succeeded() <==> Remediable(identify, source, unwritable, path)
  {
    var result := NewResult(path, identify(path), targetPath);
    match Fetch(identify, source, path)
    case None => result
    case Some(_) => result.(known := true, remediated := path !in unwritable)
  }

  /**
   * With the Noc1 source, a lookup whose client call raises an `ApiException`
   * is absorbed: the file is reported neither known nor remediated.
   */
  lemma ApiFailureIsAbsorbed(identify: Classifier, source: Source, unwritable: set<Path>,
                             client: RemediationSource.ContentRequest -> RemediationSource.ClientResponse,
                             path: Path, targetPath: Option<Path>)
    requires identify(path).KnownFileIdentity?
    requires source(identify(path)) == RemediationSource.Noc1CorrectContent(client, identify(path))
    requires client(RemediationSource.Noc1Request(identify(path))).ApiException?
    ensures !FileOutcome(identify, source, unwritable, path, targetPath).known
    ensures !FileOutcome(identify, source, unwritable, path, targetPath).Succeeded()
  {
  }

  /** The results of walking directory `dir` whose files are `walk`, accumulated in enumeration order. */
  function DirectoryOutcomes(identify: Classifier, source: Source, unwritable: set<Path>,
                             dir: Path, walk: seq<Path>): (rs: seq<RemediationResult>)
    ensures |rs| == |walk|
    ensures forall k :: 0 <= k < |walk| ==> rs[k] == FileOutcome(identify, source, unwritable, walk[k], Some(dir))
  {
    if walk == [] then []
    else
      DirectoryOutcomes(identify, source, unwritable, dir, walk[..|walk| - 1])
      + [FileOutcome(identify, source, unwritable, walk[|walk| - 1], Some(dir))]
  }

  /** The placeholder result for a directory that holds no files. */
  function EmptyDirectoryOutcome(dir: Path): (r: RemediationResult)
    ensures r.path == dir && r.targetPath == dir
    ensures r.identity == GroupIdentity(Unknown, dir)
    ensures !r.known && !r.remediated && !r.Succeeded()
  {
    NewResult(dir, GroupIdentity(Unknown, dir), None)
  }

  /**
   * Every result `remediate(path)` yields; `listing` is what a walk of `path`
   * finds when it is a directory, `None` when it is not one.
   */
  function RemediateOutcomes(identify: Classifier, source: Source, unwritable: set<Path>,
                             path: Path, listing: Option<seq<Path>>): (rs: seq<RemediationResult>)
    ensures |rs| >= 1
    ensures listing.None? ==> rs == [FileOutcome(identify, source, unwritable, path, None)]
    ensures listing == Some([]) ==>
              |rs| == 1 && rs[0].path == path && rs[0].targetPath == path
              && rs[0].identity == GroupIdentity(Unknown, path) && !rs[0].known && !rs[0].remediated
    ensures listing.Some? && listing.value != [] ==>
              |rs| == |listing.value|
              && forall k :: 0 <= k < |rs| ==>
                   rs[k] == FileOutcome(identify, source, unwritable, listing.value[k], Some(path))
                   && rs[k].targetPath == path
    ensures forall k :: 0 <= k < |rs| ==> rs[k].remediated ==> rs[k].known
  {
    match listing
    case None => [FileOutcome(identify, source, unwritable, path, None)]
    case Some(walk) =>
      if walk == [] then [EmptyDirectoryOutcome(path)]
      else DirectoryOutcomes(identify, source, unwritable, path, walk)
  }

  /** The paths a run attempted to overwrite: those of its results that obtained content. */
  function WriteAttempts(rs: seq<RemediationResult>): set<Path> {
    set r | r in rs && r.known :: r.path
  }

  /** The paths a run remediated. */
  function RemediatedPaths(rs: seq<RemediationResult>): set<Path> {
    set r | r in rs && r.remediated :: r.path
  }

  /** Every path of `paths` holds, in `files`, exactly the content the source gives for it. */
  ghost predicate HoldsFetched(identify: Classifier, source: Source, files: map<Path, Bytes>, paths: set<Path>) {
    forall q :: q in paths ==> q in files && Fetch(identify, source, q) == Some(files[q])
  }

  /**
   * One step of a directory walk keeps both disk invariants: paths never
   * attempted still hold their original bytes, and remediated paths hold
   * their fetched content (a later attempt at the same path has the same
   * outcome, so it cannot undo an earlier success).
   */
  lemma {:induction false} WalkStep(identify: Classifier, source: Source, unwritable: set<Path>, dir: Path,
                                    prefix: seq<Path>, p: Path, start: map<Path, Bytes>,
                                    before: map<Path, Bytes>, after: map<Path, Bytes>)
    requires SameOutside(start, before, WriteAttempts(DirectoryOutcomes(identify, source, unwritable, dir, prefix)))
    requires HoldsFetched(identify, source, before, RemediatedPaths(DirectoryOutcomes(identify, source, unwritable, dir, prefix)))
    requires !Fetch(identify, source, p).Some? ==> after == before
    requires Remediable(identify, source, unwritable, p) ==> after == before[p := Fetch(identify, source, p).value]
    requires SameOutside(before, after, {p})
    ensures SameOutside(start, after, WriteAttempts(DirectoryOutcomes(identify, source, unwritable, dir, prefix + [p])))
    ensures HoldsFetched(identify, source, after, RemediatedPaths(DirectoryOutcomes(identify, source, unwritable, dir, prefix + [p])))
  {
    var rs := DirectoryOutcomes(identify, source, unwritable, dir, prefix);
    var r := FileOutcome(identify, source, unwritable, p, Some(dir));
    assert (prefix + [p])[..|prefix|] == prefix;
    assert DirectoryOutcomes(identify, source, unwritable, dir, prefix + [p]) == rs + [r];
    assert WriteAttempts(rs + [r]) == WriteAttempts(rs) + (if r.known then {p} else {});
    assert RemediatedPaths(rs + [r]) == RemediatedPaths(rs) + (if r.remediated then {p} else {});
    forall q | q !in WriteAttempts(rs + [r])
      ensures SameAt(start, after, q)
    {
      assert SameAt(start, before, q) && SameAt(before, after, q);
    }
    forall q | q in RemediatedPaths(rs + [r])
      ensures q in after && Fetch(identify, source, q) == Some(after[q])
    {
      if q != p {
        assert SameAt(before, after, q);
      } else if q in RemediatedPaths(rs) {
        var k :| 0 <= k < |rs| && rs[k].remediated && rs[k].path == q;
        assert Remediable(identify, source, unwritable, prefix[k]);
      }
    }
  }

  /** How many results are truthy. */
  function CountSucceeded(rs: seq<RemediationResult>): nat {
    if rs == [] then 0
    else CountSucceeded(rs[..|rs| - 1]) + (if rs[|rs| - 1].Succeeded() then 1 else 0)
  }

  /** How many files of `walk` are remediable. */
  function CountRemediable(identify: Classifier, source: Source, unwritable: set<Path>, walk: seq<Path>): nat {
    if walk == [] then 0
    else
      CountRemediable(identify, source, unwritable, walk[..|walk| - 1])
      + (if Remediable(identify, source, unwritable, walk[|walk| - 1]) then 1 else 0)
  }

  lemma {:induction false} DirectorySuccessCount(identify: Classifier, source: Source, unwritable: set<Path>,
                                                 dir: Path, walk: seq<Path>)
    ensures CountSucceeded(DirectoryOutcomes(identify, source, unwritable, dir, walk))
            == CountRemediable(identify, source, unwritable, walk)
  {
    if walk != [] {
      var init := walk[..|walk| - 1];
      var rs := DirectoryOutcomes(identify, source, unwritable, dir, walk);
      assert rs[..|rs| - 1] == DirectoryOutcomes(identify, source, unwritable, dir, init);
      DirectorySuccessCount(identify, source, unwritable, dir, init);
    }
  }

  /**
   * The number of truthy results of `remediate(path)` is the number of its
   * files that have correct content and can be written.
   */
  lemma SuccessCount(identify: Classifier, source: Source, unwritable: set<Path>,
                     path: Path, listing: Option<seq<Path>>)
    ensures listing.None? ==>
              CountSucceeded(RemediateOutcomes(identify, source, unwritable, path, listing))
              == (if Remediable(identify, source, unwritable, path) then 1 else 0)
    ensures listing.Some? ==>
              CountSucceeded(RemediateOutcomes(identify, source, unwritable, path, listing))
              == CountRemediable(identify, source, unwritable, listing.value)
  {
    var rs := RemediateOutcomes(identify, source, unwritable, path, listing);
    if listing.Some? {
      if listing.value == [] {
        assert rs[..0] == [];
      } else {
        DirectorySuccessCount(identify, source, unwritable, path, listing.value);
      }
    } else {
      assert rs[..0] == [];
    }
  }

  /** A run succeeded as a whole exactly when every one of its results is truthy. */
  lemma {:induction false} AllSucceeded(rs: seq<RemediationResult>)
    ensures CountSucceeded(rs) <= |rs|
    ensures CountSucceeded(rs) == |rs| <==> forall k :: 0 <= k < |rs| ==> rs[k].Succeeded()
  {
    if rs != [] {
      var init := rs[..|rs| - 1];
      AllSucceeded(init);
      if CountSucceeded(rs) == |rs| {
        forall k | 0 <= k < |rs| ensures rs[k].Succeeded() {
          if k < |rs| - 1 { assert rs[k] == init[k]; }
        }
      }
    }
  }

  /**
   * Every result of `remediate(path)` is truthy exactly when the path is a
   * remediable file, or a non-empty directory all of whose files are
   * remediable. An empty directory's placeholder is never truthy.
   */
  lemma RunSucceeded(identify: Classifier, source: Source, unwritable: set<Path>,
                     path: Path, listing: Option<seq<Path>>)
    ensures var rs := RemediateOutcomes(identify, source, unwritable, path, listing);
            (forall k :: 0 <= k < |rs| ==> rs[k].Succeeded())
            <==> CountSucceeded(rs) == |rs|
    ensures var rs := RemediateOutcomes(identify, source, unwritable, path, listing);
            (forall k :: 0 <= k < |rs| ==> rs[k].Succeeded())
            <==> (|| (listing.None? && Remediable(identify, source, unwritable, path))
                  || (&& listing.Some? && listing.value != []
                      && forall k :: 0 <= k < |listing.value| ==>
                           Remediable(identify, source, unwritable, listing.value[k])))
  {
    var rs := RemediateOutcomes(identify, source, unwritable, path, listing);
    AllSucceeded(rs);
  }

  class Remediator {
    /** The file identifier. */
    const identify: Classifier
    /** Where correct content comes from. */
    const source: Source
    /** How many top-level inputs `Remediate` has been given. */
    var inputCount: nat

    constructor (identify: Classifier, source: Source)
      ensures this.identify == identify && this.source == source && inputCount == 0
    {
      this.identify := identify;
      this.source := source;
      inputCount := 0;
    }

    /**
     * Remediates one file: classify, fetch, overwrite. The write goes to
     * `path`; `targetPath` is only recorded on the result.
     */
    method RemediateFile(disk: Disk, path: Path, targetPath: Option<Path>) returns (result: RemediationResult)
      modifies disk`files
      ensures result == FileOutcome(identify, source, disk.unwritable, path, targetPath)
      ensures !result.known ==> disk.files == old(disk.files)
      ensures result.remediated ==> disk.files == old(disk.files)[path := Fetch(identify, source, path).value]
      ensures SameOutside(old(disk.files), disk.files, {path})
    {
      var identity := identify(path);
      result := NewResult(path, identity, targetPath);
      if identity.fileType == Unknown {
        return;
      }
      var correctContent := source(identity);
      if correctContent.None? {
        return;
      }
      result := result.(known := true);
      var written := disk.Overwrite(path, correctContent.value);
      if written {
        result := result.(remediated := true);
      }
    }

    /**
     * Remediates `path`: every file a walk of it finds when it is a
     * directory, or the path itself otherwise.
     */
    method Remediate(disk: Disk, path: Path) returns (results: seq<RemediationResult>)
      modifies this`inputCount, disk`files
      ensures inputCount == old(inputCount) + 1
      ensures results == RemediateOutcomes(identify, source, disk.unwritable, path, disk.Listing(path))
      ensures SameOutside(old(disk.files), disk.files, WriteAttempts(results))
      ensures HoldsFetched(identify, source, disk.files, RemediatedPaths(results))
    {
      inputCount := inputCount + 1;
      if path in disk.directories {
        var walk := disk.directories[path];
        var fileFound := false;
        results := [];
        for i := 0 to |walk|
          invariant fileFound <==> i > 0
          invariant inputCount == old(inputCount) + 1
          invariant results == DirectoryOutcomes(identify, source, disk.unwritable, path, walk[..i])
          invariant SameOutside(old(disk.files), disk.files, WriteAttempts(results))
          invariant HoldsFetched(identify, source, disk.files, RemediatedPaths(results))
        {
          ghost var before := disk.files;
          var result := RemediateFile(disk, walk[i], Some(path));
          WalkStep(identify, source, disk.unwritable, path, walk[..i], walk[i], old(disk.files), before, disk.files);
          assert walk[..i] + [walk[i]] == walk[..i + 1];
          results := results + [result];
          fileFound := true;
        }
        assert walk[..|walk|] == walk;
        if !fileFound {
          results := [EmptyDirectoryOutcome(path)];
        }
      } else {
        var result := RemediateFile(disk, path, None);
        results := [result];
      }
    }
  }
}
