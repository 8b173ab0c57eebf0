/** The hash-based refresh of the local gift databases in
    internal/misc/db_updater.go (`UpdateDB`): a file is downloaded again when the
    hash recorded for it locally differs from the published one, and the recorded
    hash follows a successful download. The network, the JSON files and the file
    system are oracles; the per-file workers run one after another, in the order of
    the sorted names. */
module HashRefresh {
  import opened Wrappers
  import CountRefresh

  // ---------------------------------------------------------------- ordering

  /** `sort.Strings` order: lexicographic on code points, which is the byte order of
      the strings' UTF-8 encodings. */
  predicate Below(a: string, b: string)
    decreases |a|
  {
    if |a| == 0 then |b| > 0
    else if |b| == 0 then false
    else if a[0] != b[0] then a[0] < b[0]
    else Below(a[1..], b[1..])
  }

  lemma {:induction false} BelowIrreflexive(a: string)
    ensures !Below(a, a)
    decreases |a|
  {
    if |a| > 0 {
      BelowIrreflexive(a[1..]);
    }
  }

  lemma {:induction false} BelowTransitive(a: string, b: string, c: string)
    requires Below(a, b) && Below(b, c)
    ensures Below(a, c)
    decreases |a|
  {
    if |a| > 0 && a[0] == b[0] && b[0] == c[0] {
      BelowTransitive(a[1..], b[1..], c[1..]);
    }
  }

  lemma {:induction false} BelowTotal(a: string, b: string)
    requires a != b
    ensures Below(a, b) || Below(b, a)
    decreases |a|
  {
    if |a| > 0 && |b| > 0 && a[0] == b[0] {
      assert a == [a[0]] + a[1..] && b == [b[0]] + b[1..];
      BelowTotal(a[1..], b[1..]);
    }
  }

  /** Strictly ascending, hence without repetitions. */
  predicate Ascending(s: seq<string>) {
    forall i, j :: 0 <= i < j < |s| ==> Below(s[i], s[j])
  }

  lemma AscendingIsDistinct(s: seq<string>)
    requires Ascending(s)
    ensures forall i, j :: 0 <= i < j < |s| ==> s[i] != s[j]
  {
    forall i, j | 0 <= i < j < |s|
      ensures s[i] != s[j]
    {
      BelowIrreflexive(s[i]);
    }
  }

  /** `k` inserted into an ascending sequence in its place. */
  function InsertSorted(s: seq<string>, k: string): (r: seq<string>)
    requires Ascending(s) && k !in s
    ensures Ascending(r) && |r| == |s| + 1
    ensures forall x :: x in r <==> x in s || x == k
  {
    if |s| == 0 then [k]
    else if Below(k, s[0]) then
      assert forall j :: 0 < j < |s| ==> Below(k, s[j]) by {
        forall j | 0 < j < |s|
          ensures Below(k, s[j])
        {
          BelowTransitive(k, s[0], s[j]);
        }
      }
      [k] + s
    else
      BelowTotal(k, s[0]);
      var rest := InsertSorted(s[1..], k);
      assert forall x :: x in rest ==> Below(s[0], x) by {
        forall x | x in rest
          ensures Below(s[0], x)
        {
          if x != k {
            var j :| 0 <= j < |s[1..]| && s[1..][j] == x;
            assert s[j + 1] == x;
          }
        }
      }
      [s[0]] + rest
  }

  /** `sortedKeys`: every key of the map exactly once, in ascending order. The keys
      are taken in an unspecified order, as Go's map iteration does. */
  method SortedKeys(m: map<string, string>) returns (keys: seq<string>)
    ensures Ascending(keys) && |keys| == |m|
    ensures forall k :: k in keys <==> k in m
  {
    keys := [];
    var rest := m.Keys;
    while rest != {}
      invariant rest <= m.Keys && Ascending(keys) && |keys| + |rest| == |m|
      invariant forall k :: k in keys <==> k in m && k !in rest
      decreases |rest|
    {
      var k :| k in rest;
      keys := InsertSorted(keys, k);
      rest := rest - {k};
    }
  }

  /** The head of an ascending sequence is below every other element. */
  lemma HeadIsLeast(s: seq<string>, x: string)
    requires Ascending(s) && x in s
    ensures x == s[0] || Below(s[0], x)
  {
  }

  lemma HeadsAgree(a: seq<string>, b: seq<string>)
    requires Ascending(a) && Ascending(b) && |a| > 0 && |b| > 0
    requires forall x :: x in a <==> x in b
    ensures a[0] == b[0]
  {
    assert a[0] in a && b[0] in b;
    HeadIsLeast(a, b[0]);
    HeadIsLeast(b, a[0]);
    if a[0] != b[0] {
      BelowTransitive(a[0], b[0], a[0]);
      BelowIrreflexive(a[0]);
    }
  }

  /** Two ascending sequences with the same elements are equal, so the order of the
      workers is fixed by the set of published names. */
  lemma {:induction false} AscendingUnique(a: seq<string>, b: seq<string>)
    requires Ascending(a) && Ascending(b)
    requires forall x :: x in a <==> x in b
    ensures a == b
    decreases |a|
  {
    if |a| > 0 && |b| > 0 {
      HeadsAgree(a, b);
      forall x
        ensures x in a[1..] <==> x in b[1..]
      {
        if x in a[1..] {
          var i :| 0 <= i < |a[1..]| && a[1..][i] == x;
          assert Below(a[0], a[i + 1]);
          BelowIrreflexive(x);
          assert x != b[0] && x in b;
          var k :| 0 <= k < |b| && b[k] == x;
          assert b[1..][k - 1] == x;
        }
        if x in b[1..] {
          var i :| 0 <= i < |b[1..]| && b[1..][i] == x;
          assert Below(b[0], b[i + 1]);
          BelowIrreflexive(x);
          assert x != a[0] && x in a;
          var k :| 0 <= k < |a| && a[k] == x;
          assert a[1..][k - 1] == x;
        }
      }
      AscendingUnique(a[1..], b[1..]);
      assert a == [a[0]] + a[1..] && b == [b[0]] + b[1..];
    } else {
      SameElementsBothEmpty(a, b);
    }
  }

  lemma SameElementsBothEmpty(a: seq<string>, b: seq<string>)
    requires forall x :: x in a <==> x in b
    ensures |a| == 0 <==> |b| == 0
  {
    if |a| > 0 {
      assert a[0] in a;
    }
    if |b| > 0 {
      assert b[0] in b;
    }
  }

  // ---------------------------------------------------------------- hashes

  /** The local hashes file: missing, unreadable for another reason, or read, with
      its JSON decoded (`None` when it does not decode). */
  datatype HashesFile = NoFile | Unreadable | Stored(decoded: Option<map<string, string>>)

  /** `loadLocalHashes`. */
  function LoadLocalHashes(f: HashesFile): (r: Option<map<string, string>>)
    ensures r.Some? <==> f.NoFile? || (f.Stored? && f.decoded.Some?)
    ensures f.NoFile? ==> r == Some(map[])
    ensures f.Stored? ==> r == f.decoded
  {
    match f
    case NoFile => Some(map[])
    case Unreadable => None
    case Stored(decoded) => decoded
  }

  /** What `http.Get` and the decoder make of the published hashes. */
  datatype RemoteHashes = RemoteHashes(getFails: bool, status: int, decoded: Option<map<string, string>>)

  datatype UpdateError = FetchFailed | BadStatus(code: int) | DecodeFailed | LocalHashesFailed | SaveFailed

  /** Everything that happens to one file outside the program. */
  datatype FileEvents = FileEvents(tempFails: bool, download: CountRefresh.Download, renameFails: bool)

  /** The result line of one file. */
  datatype Outcome = UpToDate | TempFailed | DownloadFailed | RenameFailed | Updated

  /** Go's map read: a missing name reads as the empty hash. */
  function HashOf(m: map<string, string>, name: string): string {
    if name in m then m[name] else ""
  }

  /** The result of one file's worker. */
  function Decide(local: map<string, string>, remote: map<string, string>, name: string, ev: FileEvents): Outcome {
    if HashOf(local, name) == HashOf(remote, name) then UpToDate
    else if ev.tempFails then TempFailed
    else if !CountRefresh.DownloadOk(ev.download) then DownloadFailed
    else if ev.renameFails then RenameFailed
    else Updated
  }

  /** The local hashes after one worker. */
  function Record(local: map<string, string>, remote: map<string, string>, name: string, ev: FileEvents)
    : map<string, string>
  {
    if Decide(local, remote, name, ev) == Updated then local[name := HashOf(remote, name)] else local
  }

  /** One worker's rules: a file whose recorded hash equals the published one is not
      downloaded and keeps its hash; a successful download records the published
      hash; every failure keeps the recorded hash; only the worker's own entry can
      change. */
  lemma WorkerRules(local: map<string, string>, remote: map<string, string>, name: string, ev: FileEvents)
    ensures HashOf(local, name) == HashOf(remote, name) ==>
      Decide(local, remote, name, ev) == UpToDate && Record(local, remote, name, ev) == local
    ensures Decide(local, remote, name, ev) == Updated <==>
      HashOf(local, name) != HashOf(remote, name) && !ev.tempFails
      && CountRefresh.DownloadOk(ev.download) && !ev.renameFails
    ensures HashOf(Record(local, remote, name, ev), name) ==
      if Decide(local, remote, name, ev) in {TempFailed, DownloadFailed, RenameFailed}
      then HashOf(local, name) else HashOf(remote, name)
    ensures forall other :: other != name ==>
      (other in Record(local, remote, name, ev) <==> other in local)
      && HashOf(Record(local, remote, name, ev), other) == HashOf(local, other)
  {
  }

  /** A published name with an empty hash and no local entry reads as up to date and
      is never downloaded, because the missing entry reads as the empty hash. */
  lemma EmptyPublishedHashNeverDownloads(local: map<string, string>, remote: map<string, string>,
                                         name: string, ev: FileEvents)
    requires name in remote && remote[name] == "" && name !in local
    ensures Decide(local, remote, name, ev) == UpToDate
  {
  }

  /** A second refresh against the same published hashes downloads nothing for a file
      the first one updated. */
  lemma UpdatedIsThenUpToDate(local: map<string, string>, remote: map<string, string>, name: string,
                              ev: FileEvents, again: FileEvents)
    requires Decide(local, remote, name, ev) == Updated
    ensures Decide(Record(local, remote, name, ev), remote, name, again) == UpToDate
  {
  }

  /** The workers over `names` in order: the local hashes afterwards and one result
      per name. */
  function RefreshAll(local: map<string, string>, remote: map<string, string>, names: seq<string>,
                      events: string -> FileEvents): (r: (map<string, string>, seq<Outcome>))
    ensures |r.1| == |names|
  {
    if |names| == 0 then (local, [])
    else
      var (before, outcomes) := RefreshAll(local, remote, names[..|names| - 1], events);
      var name := names[|names| - 1];
      (Record(before, remote, name, events(name)), outcomes + [Decide(before, remote, name, events(name))])
  }

  /** Entries for names that are not visited, such as names no longer published,
      survive unchanged. */
  lemma {:induction false} UnvisitedSurvive(local: map<string, string>, remote: map<string, string>,
                                            names: seq<string>, events: string -> FileEvents, name: string)
    requires name !in names
    ensures name in RefreshAll(local, remote, names, events).0 <==> name in local
    ensures HashOf(RefreshAll(local, remote, names, events).0, name) == HashOf(local, name)
  {
    if |names| > 0 {
      var init := names[..|names| - 1];
      assert forall i :: 0 <= i < |init| ==> init[i] == names[i];
      assert name !in init;
      UnvisitedSurvive(local, remote, init, events, name);
      WorkerRules(RefreshAll(local, remote, init, events).0, remote, names[|names| - 1],
                  events(names[|names| - 1]));
    }
  }

  /** With each name visited once, a name's final recorded hash is the published one
      unless its worker failed, and its old one if it did. */
  lemma {:induction false} VisitedFollowOutcome(local: map<string, string>, remote: map<string, string>,
                                                names: seq<string>, events: string -> FileEvents, k: nat)
    requires forall i, j :: 0 <= i < j < |names| ==> names[i] != names[j]
    requires k < |names|
    ensures var (hashes, outcomes) := RefreshAll(local, remote, names, events);
      HashOf(hashes, names[k]) ==
        if outcomes[k] in {TempFailed, DownloadFailed, RenameFailed}
        then HashOf(local, names[k]) else HashOf(remote, names[k])
    decreases |names|
  {
    var init := names[..|names| - 1];
    var last := names[|names| - 1];
    var before := RefreshAll(local, remote, init, events).0;
    WorkerRules(before, remote, last, events(last));
    if k == |names| - 1 {
      assert forall i :: 0 <= i < |init| ==> init[i] == names[i] && init[i] != last;
      assert last !in init;
      UnvisitedSurvive(local, remote, init, events, last);
    } else {
      assert init[k] == names[k];
      VisitedFollowOutcome(local, remote, init, events, k);
    }
  }

  /** The databases directory after the workers that produced `outcomes` over
      `names`: each name whose worker reports `Updated` now holds the copy with its
      published hash, and every other file is left as it was. */
  function Replaced(databases: map<string, string>, remote: map<string, string>, names: seq<string>,
                    outcomes: seq<Outcome>): (r: map<string, string>)
    requires |names| == |outcomes|
    ensures r.Keys <= databases.Keys + set k | 0 <= k < |names| :: names[k]
  {
    if |names| == 0 then databases
    else
      var name := names[|names| - 1];
      var before := Replaced(databases, remote, names[..|names| - 1], outcomes[..|outcomes| - 1]);
      if outcomes[|outcomes| - 1] == Updated then before[name := HashOf(remote, name)] else before
  }

  /** With each name visited once, a visited file holds its published copy exactly
      when its worker reports `Updated` and is otherwise untouched; a file whose
      name is not visited is untouched. */
  lemma {:induction false} ReplacedFollowsOutcome(databases: map<string, string>, remote: map<string, string>,
                                                  names: seq<string>, outcomes: seq<Outcome>, name: string)
    requires |names| == |outcomes|
    requires forall i, j :: 0 <= i < j < |names| ==> names[i] != names[j]
    ensures name !in names ==>
      (name in Replaced(databases, remote, names, outcomes) <==> name in databases)
      && HashOf(Replaced(databases, remote, names, outcomes), name) == HashOf(databases, name)
    ensures forall k :: 0 <= k < |names| && names[k] == name ==>
      && (outcomes[k] == Updated ==>
            name in Replaced(databases, remote, names, outcomes)
            && Replaced(databases, remote, names, outcomes)[name] == HashOf(remote, name))
      && (outcomes[k] != Updated ==>
            (name in Replaced(databases, remote, names, outcomes) <==> name in databases)
            && HashOf(Replaced(databases, remote, names, outcomes), name) == HashOf(databases, name))
  {
    if |names| > 0 {
      var init := names[..|names| - 1];
      var initOut := outcomes[..|outcomes| - 1];
      var last := names[|names| - 1];
      assert forall i :: 0 <= i < |init| ==> init[i] == names[i] && initOut[i] == outcomes[i];
      ReplacedFollowsOutcome(databases, remote, init, initOut, name);
      if name == last {
        assert forall i :: 0 <= i < |init| ==> init[i] != last;
        assert name !in init;
      }
    }
  }

  // ---------------------------------------------------------------- UpdateDB

  datatype Plan = Abort(err: UpdateError) | Process(local: map<string, string>, remote: map<string, string>)

  /** What the checks before the workers decide. */
  function PlanFor(response: RemoteHashes, file: HashesFile): Plan {
    if response.getFails then Abort(FetchFailed)
    else if response.status != 200 then Abort(BadStatus(response.status))
    else if response.decoded.None? then Abort(DecodeFailed)
    else if LoadLocalHashes(file).None? then Abort(LocalHashesFailed)
    else Process(LoadLocalHashes(file).value, response.decoded.value)
  }

  /** The local hashes file, the temp directory, and the databases directory as the
      recorded hash of the copy each file was last replaced with. */
  class HashStore {
    var hashesFile: HashesFile
    var temps: set<string>
    var databases: map<string, string>

    constructor (hashesFile: HashesFile, databases: map<string, string>)
      ensures this.hashesFile == hashesFile && this.databases == databases && temps == {}
    {
      this.hashesFile := hashesFile;
      this.databases := databases;
      temps := {};
    }

    /** One worker: compare the hashes, and if they differ download into a temp file
        and rename it over the local database. Every path leaves the temp directory
        as it found it. */
    method RefreshFile(local: map<string, string>, remote: map<string, string>, name: string,
                       ev: FileEvents, tmp: string)
      returns (o: Outcome, hashes: map<string, string>)
      requires tmp !in temps
      modifies this
      ensures o == Decide(local, remote, name, ev) && hashes == Record(local, remote, name, ev)
      ensures databases == if o == Updated then old(databases)[name := HashOf(remote, name)] else old(databases)
      ensures temps == old(temps) && hashesFile == old(hashesFile)
    {
      hashes := local;
      var localHash := HashOf(local, name);
      var remoteHash := HashOf(remote, name);
      if localHash == remoteHash {
        return UpToDate, hashes;
      }
      if ev.tempFails {
        return TempFailed, hashes;
      }
      temps := temps + {tmp};
      if !CountRefresh.DownloadOk(ev.download) {
        temps := temps - {tmp};
        return DownloadFailed, hashes;
      }
      if ev.renameFails {
        temps := temps - {tmp};
        return RenameFailed, hashes;
      }
      temps := temps - {tmp};
      databases := databases[name := remoteHash];
      hashes := hashes[name := remoteHash];
      return Updated, hashes;
    }

    /** `UpdateDB` without its spinner, ticker and screen clear. `order` is the
        sorted list of published names the workers visit. */
    method UpdateDB(response: RemoteHashes, events: string -> FileEvents, saveFails: bool, tmp: string)
      returns (err: Option<UpdateError>, order: seq<string>, results: seq<Outcome>)
      requires tmp !in temps
      modifies this
      ensures temps == old(temps)
      ensures PlanFor(response, old(hashesFile)).Abort? ==>
        && err == Some(PlanFor(response, old(hashesFile)).err) && results == []
        && hashesFile == old(hashesFile) && databases == old(databases)
      ensures PlanFor(response, old(hashesFile)).Process? ==>
        var plan := PlanFor(response, old(hashesFile));
        && Ascending(order) && (forall k :: k in order <==> k in plan.remote)
        && results == RefreshAll(plan.local, plan.remote, order, events).1
        && databases == Replaced(old(databases), plan.remote, order, results)
        && err == (if saveFails then Some(SaveFailed) else None)
        && hashesFile == (if saveFails then old(hashesFile)
                          else Stored(Some(RefreshAll(plan.local, plan.remote, order, events).0)))
    {
      if response.getFails {
        return Some(FetchFailed), [], [];
      }
      if response.status != 200 {
        return Some(BadStatus(response.status)), [], [];
      }
      if response.decoded.None? {
        return Some(DecodeFailed), [], [];
      }
      var remote := response.decoded.value;
      var loaded := LoadLocalHashes(hashesFile);
      if loaded.None? {
        return Some(LocalHashesFailed), [], [];
      }
      var local := loaded.value;
      order := SortedKeys(remote);
      var hashes := local;
      results := [];
      for i := 0 to |order|
        invariant tmp !in temps && temps == old(temps) && hashesFile == old(hashesFile)
        invariant (hashes, results) == RefreshAll(local, remote, order[..i], events)
        invariant databases == Replaced(old(databases), remote, order[..i], results)
      {
        assert order[..i + 1][..i] == order[..i];
        var o;
        o, hashes := RefreshFile(hashes, remote, order[i], events(order[i]), tmp);
        assert (results + [o])[..i] == results;
        results := results + [o];
      }
      assert order[..|order|] == order;
      if saveFails {
        return Some(SaveFailed), order, results;
      }
      hashesFile := Stored(Some(hashes));
      err := None;
    }
  }

  /** The saved hashes after a refresh whose workers all ran: every published name
      is recorded with its published hash unless its worker failed, and every name
      that is no longer published keeps its entry. */
  lemma SavedHashes(local: map<string, string>, remote: map<string, string>, order: seq<string>,
                    events: string -> FileEvents, name: string)
    requires Ascending(order) && (forall k :: k in order <==> k in remote)
    ensures var (hashes, outcomes) := RefreshAll(local, remote, order, events);
      && (name !in remote ==> (name in hashes <==> name in local) && HashOf(hashes, name) == HashOf(local, name))
      && (forall k :: 0 <= k < |order| && order[k] == name ==>
            HashOf(hashes, name) ==
              if outcomes[k] in {TempFailed, DownloadFailed, RenameFailed}
              then HashOf(local, name) else HashOf(remote, name))
  {
    AscendingIsDistinct(order);
    if name !in remote {
      UnvisitedSurvive(local, remote, order, events, name);
    }
    forall k | 0 <= k < |order| && order[k] == name
      ensures var (hashes, outcomes) := RefreshAll(local, remote, order, events);
        HashOf(hashes, name) ==
          if outcomes[k] in {TempFailed, DownloadFailed, RenameFailed}
          then HashOf(local, name) else HashOf(remote, name)
    {
      VisitedFollowOutcome(local, remote, order, events, k);
    }
  }
}
