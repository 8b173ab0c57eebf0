/** The count-based refresh of the local gift databases in internal/utils.go
    (`UpdateAllDatabasesFromGitHub`): list the remote directory, keep its `.db`
    files, and replace a local file only by a downloaded copy with strictly more
    rows. The network, SQLite and the file system are oracles; the per-file workers
    run one after another. */
module CountRefresh {
  import opened Wrappers
  import opened Text

  /** An entry of the GitHub contents listing. `kind` is its `type` field. */
  datatype GitHubFile = GitHubFile(name: string, kind: string, path: string)

  /** What `http.Get` and the JSON decoder make of the listing request. */
  datatype ListingResponse = ListingResponse(getFails: bool, status: int, decoded: Option<seq<GitHubFile>>)

  datatype RefreshError = FetchListFailed | BadStatus(code: int) | DecodeFailed | NoDbFiles | MkdirFailed

  /** A database file as far as the refresh sees it: the result of its `COUNT(*)`,
      `None` when the count errs. */
  datatype DbCopy = DbCopy(count: Option<nat>)

  /** The steps of `downloadFile`. */
  datatype Download = Download(getFails: bool, status: int, createFails: bool, copyFails: bool)

  /** Everything that happens to one file outside the program: the temp file, the
      download, the downloaded copy, and the final rename. */
  datatype FileEvents = FileEvents(tempFails: bool, download: Download, remote: DbCopy, renameFails: bool)

  /** The result message of one file. */
  datatype Outcome =
    | TempFailed
    | DownloadFailed
    | CountFailed
    | UpToDate(entries: int)
    | RenameFailed
    | Updated(before: int, after: int)

  // ---------------------------------------------------------------- selection

  /** `filepath.Ext`, scanning back from position `i`: the suffix of `name` from the
      last '.' before `i`, or "" when a '/' or the start comes first. */
  function ExtFrom(name: string, i: nat): (e: string)
    requires i <= |name|
    ensures e == "" || (|name| - i < |e| <= |name| && e == name[|name| - |e|..] && e[0] == '.')
  {
    if i == 0 || name[i - 1] == '/' then ""
    else if name[i - 1] == '.' then name[i - 1..]
    else ExtFrom(name, i - 1)
  }

  function Ext(name: string): string {
    ExtFrom(name, |name|)
  }

  /** A file name has the extension ".db" exactly when it ends in ".db". */
  lemma DbExtension(name: string)
    ensures Ext(name) == ".db" <==> |name| >= 3 && name[|name| - 3..] == ".db"
  {
    var n := |name|;
    if n >= 3 && name[n - 3..] == ".db" {
      assert name[n - 1] == 'b' && name[n - 2] == 'd' && name[n - 3] == '.';
      assert ExtFrom(name, n) == ExtFrom(name, n - 1) == ExtFrom(name, n - 2) == name[n - 3..];
    }
  }

  /** A listing entry the refresh processes. */
  predicate IsDbFile(f: GitHubFile) {
    f.kind == "file" && Ext(f.name) == ".db"
  }

  /** The `.db` files of a listing, in listing order. */
  function DbFiles(files: seq<GitHubFile>): (db: seq<GitHubFile>)
    ensures |db| <= |files|
  {
    if |files| == 0 then []
    else DbFiles(files[..|files| - 1]) + (if IsDbFile(files[|files| - 1]) then [files[|files| - 1]] else [])
  }

  /** The append loop that builds `dbFiles`. */
  method SelectDbFiles(files: seq<GitHubFile>) returns (dbFiles: seq<GitHubFile>)
    ensures dbFiles == DbFiles(files)
  {
    dbFiles := [];
    for i := 0 to |files|
      invariant dbFiles == DbFiles(files[..i])
    {
      assert files[..i + 1][..i] == files[..i];
      if files[i].kind == "file" && Ext(files[i].name) == ".db" {
        dbFiles := dbFiles + [files[i]];
      }
    }
    assert files[..|files|] == files;
  }

  /** An entry is selected exactly when it is a `.db` file, and the selection keeps
      the listing's order. */
  lemma {:induction false} DbFilesSelects(files: seq<GitHubFile>, f: GitHubFile)
    ensures f in DbFiles(files) <==> f in files && IsDbFile(f)
    ensures IsSubsequence(DbFiles(files), files)
  {
    if |files| == 0 {
      SubsequenceRefl(files);
    } else {
      var init := files[..|files| - 1];
      var last := files[|files| - 1];
      DbFilesSelects(init, f);
      assert init + [last] == files;
      SubsequenceSnoc(DbFiles(init), init, last);
      if !IsDbFile(last) {
        assert DbFiles(init) + [] == DbFiles(init);
      }
    }
  }

  // ---------------------------------------------------------------- one file

  /** `downloadFile` succeeds when the request, a 200 status, the create and the copy
      all do. */
  predicate DownloadOk(d: Download) {
    !d.getFails && d.status == 200 && !d.createFails && !d.copyFails
  }

  /** The local row count, 0 for a file that is missing or cannot be counted. */
  function LocalCount(files: map<string, DbCopy>, name: string): nat {
    if name in files && files[name].count.Some? then files[name].count.value else 0
  }

  /** The result of one file's worker. */
  function Decide(files: map<string, DbCopy>, name: string, ev: FileEvents): Outcome {
    var localCount := LocalCount(files, name);
    if ev.tempFails then TempFailed
    else if !DownloadOk(ev.download) then DownloadFailed
    else if ev.remote.count.None? then CountFailed
    else if localCount >= ev.remote.count.value then UpToDate(localCount)
    else if ev.renameFails then RenameFailed
    else Updated(localCount, ev.remote.count.value)
  }

  /** The local file is replaced exactly when every step succeeds and the downloaded
      copy has strictly more rows than the local one, a local file that cannot be
      counted having none; a download with a status other than 200 never replaces. */
  lemma ReplacedIffStrictlyMore(files: map<string, DbCopy>, name: string, ev: FileEvents)
    ensures Decide(files, name, ev).Updated? <==>
      && !ev.tempFails && DownloadOk(ev.download) && !ev.renameFails
      && ev.remote.count.Some? && ev.remote.count.value > LocalCount(files, name)
    ensures ev.download.status != 200 ==> Decide(files, name, ev) == DownloadFailed || Decide(files, name, ev) == TempFailed
    ensures (name !in files || files[name].count.None?) && Decide(files, name, ev).Updated? ==>
      Decide(files, name, ev).before == 0
    ensures Decide(files, name, ev).Updated? ==> Decide(files, name, ev).before < Decide(files, name, ev).after
  {
  }

  /** The local databases directory and the system's temp directory. */
  class DatabaseDir {
    var files: map<string, DbCopy>
    var temps: set<string>

    constructor (files: map<string, DbCopy>)
      ensures this.files == files && temps == {}
    {
      this.files := files;
      temps := {};
    }

    /** One worker: count the local file, download into a fresh temp file, count the
        copy, and either rename it over the local file or delete it. Every path
        leaves the temp directory as it found it. */
    method RefreshFile(name: string, ev: FileEvents, tmp: string) returns (o: Outcome)
      requires tmp !in temps
      modifies this
      ensures o == Decide(old(files), name, ev)
      ensures files == if o.Updated? then old(files)[name := ev.remote] else old(files)
      ensures temps == old(temps)
    {
      var localCount := LocalCount(files, name);
      if ev.tempFails {
        return TempFailed;
      }
      temps := temps + {tmp};
      if !DownloadOk(ev.download) {
        temps := temps - {tmp};
        return DownloadFailed;
      }
      if ev.remote.count.None? {
        temps := temps - {tmp};
        return CountFailed;
      }
      var remoteCount := ev.remote.count.value;
      if localCount >= remoteCount {
        temps := temps - {tmp};
        return UpToDate(localCount);
      }
      if ev.renameFails {
        temps := temps - {tmp};
        return RenameFailed;
      }
      files := files[name := ev.remote];
      temps := temps - {tmp};
      return Updated(localCount, remoteCount);
    }

    /** `UpdateAllDatabasesFromGitHub` without its spinner, sleep and screen clear:
        the listing is checked, the `.db` files are selected, the directory is
        created, and each file is refreshed in listing order. `remote` gives the
        events of each file by its path in the repository. */
    method UpdateAllDatabases(listing: ListingResponse, mkdirFails: bool, remote: string -> FileEvents, tmp: string)
      returns (err: Option<RefreshError>, results: seq<Outcome>)
      requires tmp !in temps
      modifies this
      ensures PlanFor(listing, mkdirFails).Abort? ==>
        err == Some(PlanFor(listing, mkdirFails).err) && results == [] && files == old(files)
      ensures PlanFor(listing, mkdirFails).Process? ==>
        err == None && (files, results) == RefreshAll(old(files), PlanFor(listing, mkdirFails).dbFiles, remote)
      ensures temps == old(temps)
    {
      if listing.getFails {
        return Some(FetchListFailed), [];
      }
      if listing.status != 200 {
        return Some(BadStatus(listing.status)), [];
      }
      if listing.decoded.None? {
        return Some(DecodeFailed), [];
      }
      var dbFiles := SelectDbFiles(listing.decoded.value);
      if |dbFiles| == 0 {
        return Some(NoDbFiles), [];
      }
      if mkdirFails {
        return Some(MkdirFailed), [];
      }
      ghost var start := files;
      results := [];
      for i := 0 to |dbFiles|
        invariant tmp !in temps && temps == old(temps)
        invariant (files, results) == RefreshAll(start, dbFiles[..i], remote)
      {
        assert dbFiles[..i + 1][..i] == dbFiles[..i];
        var o := RefreshFile(dbFiles[i].name, remote(dbFiles[i].path), tmp);
        results := results + [o];
      }
      assert dbFiles[..|dbFiles|] == dbFiles;
      err := None;
    }
  }

  // ---------------------------------------------------------------- all files

  datatype Plan = Abort(err: RefreshError) | Process(dbFiles: seq<GitHubFile>)

  /** What the checks before the workers decide. */
  function PlanFor(listing: ListingResponse, mkdirFails: bool): Plan {
    if listing.getFails then Abort(FetchListFailed)
    else if listing.status != 200 then Abort(BadStatus(listing.status))
    else if listing.decoded.None? then Abort(DecodeFailed)
    else if |DbFiles(listing.decoded.value)| == 0 then Abort(NoDbFiles)
    else if mkdirFails then Abort(MkdirFailed)
    else Process(DbFiles(listing.decoded.value))
  }

  /** Files are processed only after a 200 listing, and then they are exactly its
      `.db` files; an empty selection is an error whatever creating the directory
      would have done, because it is reported before the directory is created. */
  lemma PlanChecks(listing: ListingResponse, mkdirFails: bool)
    ensures PlanFor(listing, mkdirFails).Process? ==>
      && listing.status == 200 && listing.decoded.Some?
      && PlanFor(listing, mkdirFails).dbFiles == DbFiles(listing.decoded.value)
      && |PlanFor(listing, mkdirFails).dbFiles| > 0
    ensures listing.status != 200 ==> PlanFor(listing, mkdirFails).Abort?
    ensures !listing.getFails && listing.status == 200 && listing.decoded.Some?
            && |DbFiles(listing.decoded.value)| == 0 ==>
      PlanFor(listing, mkdirFails) == PlanFor(listing, !mkdirFails) == Abort(NoDbFiles)
  {
  }

  /** The workers in listing order: the new directory and one result per file. */
  function RefreshAll(files: map<string, DbCopy>, dbFiles: seq<GitHubFile>, remote: string -> FileEvents)
    : (r: (map<string, DbCopy>, seq<Outcome>))
    ensures |r.1| == |dbFiles|
  {
    if |dbFiles| == 0 then (files, [])
    else
      var (before, outcomes) := RefreshAll(files, dbFiles[..|dbFiles| - 1], remote);
      var f := dbFiles[|dbFiles| - 1];
      var ev := remote(f.path);
      var o := Decide(before, f.name, ev);
      (if o.Updated? then before[f.name := ev.remote] else before, outcomes + [o])
  }

  /** A refresh never lowers a local row count, and it leaves the files it was not
      asked about exactly as they were. */
  lemma {:induction false} RefreshAllOnlyGrows(files: map<string, DbCopy>, dbFiles: seq<GitHubFile>,
                                               remote: string -> FileEvents, name: string)
    ensures LocalCount(RefreshAll(files, dbFiles, remote).0, name) >= LocalCount(files, name)
    ensures (forall k :: 0 <= k < |dbFiles| ==> dbFiles[k].name != name) ==>
      (name in RefreshAll(files, dbFiles, remote).0 <==> name in files)
      && (name in files ==> RefreshAll(files, dbFiles, remote).0[name] == files[name])
  {
    if |dbFiles| > 0 {
      RefreshAllOnlyGrows(files, dbFiles[..|dbFiles| - 1], remote, name);
    }
  }

  /** Running the refresh again against an unchanged remote copy replaces nothing:
      a file that was just replaced is now up to date. */
  lemma SecondRefreshIsUpToDate(files: map<string, DbCopy>, name: string, ev: FileEvents, again: FileEvents)
    requires Decide(files, name, ev).Updated?
    requires again.remote == ev.remote
    ensures !Decide(files[name := ev.remote], name, again).Updated?
  {
  }
}
