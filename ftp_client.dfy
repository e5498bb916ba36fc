/**
 * The decision logic of the transfer client (src/FtpClient.ts): the
 * collision policy of `upload`, the listing post-processing of `readdir`
 * and the name search of `stat`. The connection is abstracted away: a
 * listing is an input, and what `upload` does is described as the
 * sequence of client commands it issues, which `Execute` runs against a
 * remote file with the stream-mode restart of RFC 3659 (section 5, REST):
 * a STOR after REST n keeps the first n bytes and writes the received data
 * from byte n on.
 */
module FtpClient {
  import opened Wrappers
  import opened Types

  // ---------------------------------------------------------------- listings

  /** One element of a raw directory listing: name, type letter and size. */
  datatype ListingEntry = ListingEntry(name: string, entryType: string, size: nat)

  /** One element of what `readdir` returns. */
  datatype Entry = Entry(size: nat, filename: string, isDirectory: bool, path: string)

  /** What `stat` resolves to when the remote object is found. */
  datatype StatResult = StatResult(filename: string, path: string, size: nat)

  /** How `stat` settles: the listing was undefined (the promise rejects), no match (null), or a match. */
  datatype StatOutcome = ListingFailed | NotFound | Found(stat: StatResult)

  /** `s.substr(-1)`: the last character, or the empty string. */
  function LastChar(s: string): (r: string)
    ensures |r| <= 1 && (s != [] ==> r == [s[|s| - 1]])
    ensures s == [] ==> r == ""
  {
    if s == [] then "" else [s[|s| - 1]]
  }

  /** The directory with a trailing `/`, appended only when it is missing. */
  function DirSlash(directory: string): (d: string)
    ensures d == directory || d == directory + "/"
    ensures d != [] && d[|d| - 1] == '/'
  {
    if LastChar(directory) != "/" then directory + "/" else directory
  }

  /** The result always ends in `/`, starts with the directory, and adds at most that one character. */
  lemma DirSlashEndsInSlash(directory: string)
    ensures var d := DirSlash(directory);
      && d != [] && d[|d| - 1] == '/'
      && d[..|directory|] == directory
      && |d| <= |directory| + 1
      && (directory != [] && directory[|directory| - 1] == '/' <==> d == directory)
  {
  }

  /** Normalising twice is normalising once. */
  lemma DirSlashIdempotent(directory: string)
    ensures DirSlash(DirSlash(directory)) == DirSlash(directory)
  {
    DirSlashEndsInSlash(directory);
  }

  predicate IsDots(e: ListingEntry) {
    e.name == "." || e.name == ".."
  }

  /** One `readdir` entry: the element's size and name, `d` as the directory test, the normalised directory as path. */
  function ToEntry(directory: string, e: ListingEntry): (x: Entry)
    ensures x.size == e.size && x.filename == e.name && x.path == DirSlash(directory)
    ensures x.isDirectory <==> e.entryType == "d"
  {
    Entry(e.size, e.name, e.entryType == "d", DirSlash(directory))
  }

  /** The entries `readdir` builds from `list`, in listing order, without `.` and `..`. */
  function Listed(directory: string, list: seq<ListingEntry>): (r: seq<Entry>)
    ensures |r| <= |list|
    ensures forall k :: 0 <= k < |r| ==> r[k].filename != "." && r[k].filename != ".." && r[k].path == DirSlash(directory)
  {
    if list == [] then []
    else
      var last := list[|list| - 1];
      Listed(directory, list[..|list| - 1]) + (if IsDots(last) then [] else [ToEntry(directory, last)])
  }

  /** What `readdir` resolves to; an undefined listing gives the empty array. */
  function Listing(directory: string, list: Option<seq<ListingEntry>>): (r: seq<Entry>)
    ensures list.None? ==> r == []
    ensures list.Some? ==> forall x :: x in r <==>
      exists k :: 0 <= k < |list.value| && !IsDots(list.value[k]) && x == ToEntry(directory, list.value[k])
  {
    if list.None? then []
    else
      ListedMembers(directory, list.value);
      Listed(directory, list.value)
  }

  /** `readdir`'s post-processing: one pass over the listing, pushing each kept entry. */
  method Readdir(directory: string, list: Option<seq<ListingEntry>>) returns (files: seq<Entry>)
    ensures files == Listing(directory, list)
  {
    files := [];
    if list.Some? {
      var entries := list.value;
      for i := 0 to |entries|
        invariant files == Listed(directory, entries[..i])
      {
        assert entries[..i + 1][..i] == entries[..i];
        var file := entries[i];
        if file.name != "." && file.name != ".." {
          var dir := if LastChar(directory) != "/" then directory + "/" else directory;
          files := files + [Entry(file.size, file.name, file.entryType == "d", dir)];
        }
      }
      assert entries[..|entries|] == entries;
    }
  }

  /** Listing a concatenation is concatenating the listings: the filter keeps the listing order. */
  lemma {:induction false} ListedAppend(directory: string, a: seq<ListingEntry>, b: seq<ListingEntry>)
    ensures Listed(directory, a + b) == Listed(directory, a) + Listed(directory, b)
    decreases |b|
  {
    if b == [] {
      assert a + b == a;
    } else {
      var b' := b[..|b| - 1];
      assert (a + b)[..|a + b| - 1] == a + b';
      ListedAppend(directory, a, b');
    }
  }

  /**
   * An entry is in the result exactly when it comes from a listing element
   * other than `.` and `..`: it then carries that element's size and name,
   * the normalised directory, and is a directory exactly when the element's
   * type letter is `d`.
   */
  lemma {:induction false} ListedMembers(directory: string, list: seq<ListingEntry>)
    ensures forall x :: x in Listed(directory, list) <==>
      exists k :: 0 <= k < |list| && !IsDots(list[k]) && x == ToEntry(directory, list[k])
  {
    if list != [] {
      var init := list[..|list| - 1];
      var last := list[|list| - 1];
      ListedMembers(directory, init);
      assert Listed(directory, list) == Listed(directory, init) + (if IsDots(last) then [] else [ToEntry(directory, last)]);
      forall x | x in Listed(directory, list)
        ensures exists k :: 0 <= k < |list| && !IsDots(list[k]) && x == ToEntry(directory, list[k])
      {
        if x in Listed(directory, init) {
          var k :| 0 <= k < |init| && !IsDots(init[k]) && x == ToEntry(directory, init[k]);
          assert list[k] == init[k];
        } else {
          assert !IsDots(list[|list| - 1]) && x == ToEntry(directory, list[|list| - 1]);
        }
      }
      forall x | exists k :: 0 <= k < |list| && !IsDots(list[k]) && x == ToEntry(directory, list[k])
        ensures x in Listed(directory, list)
      {
        var k :| 0 <= k < |list| && !IsDots(list[k]) && x == ToEntry(directory, list[k]);
        if k < |init| {
          assert init[k] == list[k];
          assert x in Listed(directory, init);
        }
      }
    }
  }

  /** No entry of the result is `.` or `..`, and every entry's path ends in `/`. */
  lemma ListedShape(directory: string, list: seq<ListingEntry>)
    ensures forall x :: x in Listed(directory, list) ==>
      && x.filename != "." && x.filename != ".."
      && x.path == DirSlash(directory) && x.path[|x.path| - 1] == '/'
  {
    ListedMembers(directory, list);
    DirSlashEndsInSlash(directory);
  }

  // ---------------------------------------------------------------- stat

  /** Position of the first listing element named `name`, or -1. */
  function FirstNamed(list: seq<ListingEntry>, name: string): (i: int)
    ensures -1 <= i < |list|
    ensures i >= 0 ==> list[i].name == name && forall k :: 0 <= k < i ==> list[k].name != name
    ensures i == -1 <==> forall k :: 0 <= k < |list| ==> list[k].name != name
  {
    if list == [] then -1
    else if list[0].name == name then 0
    else
      var j := FirstNamed(list[1..], name);
      if j == -1 then -1 else j + 1
  }

  /**
   * `stat`: searches the listing of the path's directory for its base name
   * (`winBase`, the Windows-style basename) and reports the match under the
   * POSIX basename `posixBase`. The two basenames are library results and
   * enter as parameters; an undefined listing makes the promise reject.
   */
  method Stat(filePath: string, winBase: string, posixBase: string, list: Option<seq<ListingEntry>>)
    returns (r: StatOutcome)
    ensures list.None? <==> r.ListingFailed?
    ensures list.Some? ==>
      var i := FirstNamed(list.value, winBase);
      && (r.NotFound? <==> i == -1)
      && (r.Found? ==> i >= 0 && r.stat == StatResult(posixBase, filePath, list.value[i].size))
  {
    if list.None? {
      return ListingFailed;
    }
    var entries := list.value;
    var filename := winBase;
    for i := 0 to |entries|
      invariant forall k :: 0 <= k < i ==> entries[k].name != filename
    {
      var item := entries[i];
      if item.name == filename {
        return Found(StatResult(posixBase, filePath, item.size));
      }
    }
    return NotFound;
  }

  // ---------------------------------------------------------------- upload

  /** A remote file's content, as bytes. */
  type Bytes = seq<bv8>

  /** The client calls `upload` issues. */
  datatype Command =
    | StatLookup           // stat(serverPath): list the remote directory
    | Restart(offset: nat) // restartAsync(offset): REST
    | Put(from: nat)       // putAsync(stream, serverPath): STOR of the local file from byte `from` on

  /**
   * The commands issued, and whether the decision itself rejects the
   * returned promise (a failed Verify lookup). A command that fails on the
   * server rejects the promise too; command failures are not part of a plan.
   */
  datatype Plan = Plan(commands: seq<Command>, rejects: bool)

  /** The decision after a Verify lookup, with the stream start used on resume. */
  function VerifyTail(remote: StatOutcome, localSize: nat, resumeFrom: nat -> nat): Plan {
    match remote
    case ListingFailed => Plan([StatLookup], true)
    case NotFound => Plan([StatLookup, Put(0)], false)
    case Found(st) =>
      if localSize > st.size then Plan([StatLookup, Restart(st.size), Put(resumeFrom(st.size))], false)
      else Plan([StatLookup], false)
  }

  /** Verify found a smaller remote object: the only case in which `upload` restarts a transfer. */
  predicate Resumes(behavior: Behavior, remote: StatOutcome, localSize: nat) {
    behavior == Verify && remote.Found? && localSize > remote.stat.size
  }

  /**
   * `upload` as written: on resume the stream handed to STOR is the one the
   * orchestrator opened with `createReadStream(localPath)`, so it starts at
   * byte 0 whatever the restart offset.
   */
  function UploadPlanAsWritten(behavior: Behavior, remote: StatOutcome, localSize: nat): (p: Plan)
    ensures forall k :: 0 <= k < |p.commands| && p.commands[k].Put? ==> p.commands[k].from == 0
    ensures p.rejects <==> behavior == Verify && remote.ListingFailed?
  {
    match behavior
    case Cover => Plan([Put(0)], false)
    case Skip => Plan([], false)
    case Verify => VerifyTail(remote, localSize, (offset: nat) => 0)
  }

  /**
   * `upload` with the resumed stream starting at the restart offset: the
   * same commands as written, except that a resumed STOR sends the local
   * file from the remote size on.
   */
  function UploadPlan(behavior: Behavior, remote: StatOutcome, localSize: nat): (p: Plan)
    ensures !Resumes(behavior, remote, localSize) ==> p == UploadPlanAsWritten(behavior, remote, localSize)
    ensures Resumes(behavior, remote, localSize) ==>
      var w := UploadPlanAsWritten(behavior, remote, localSize);
      |w.commands| == 3 && p == w.(commands := w.commands[2 := Put(remote.stat.size)])
  {
    match behavior
    case Cover => Plan([Put(0)], false)
    case Skip => Plan([], false)
    case Verify => VerifyTail(remote, localSize, (offset: nat) => offset)
  }

  /** The bytes a STOR sends: the local file from byte `from` on. */
  function Sent(local: Bytes, from: nat): Bytes {
    if from <= |local| then local[from..] else []
  }

  /**
   * The remote file after the commands run, `marker` being the offset of a
   * preceding REST. A STOR keeps the first `marker` bytes (none without a
   * REST), writes the sent bytes after them and clears the marker.
   */
  function Execute(remote: Bytes, local: Bytes, cmds: seq<Command>, marker: Option<nat>): Bytes
    decreases |cmds|
  {
    if cmds == [] then remote
    else
      match cmds[0]
      case StatLookup => Execute(remote, local, cmds[1..], marker)
      case Restart(offset) => Execute(remote, local, cmds[1..], Some(offset))
      case Put(from) =>
        var kept := if marker.Some? && marker.value <= |remote| then remote[..marker.value] else [];
        Execute(kept + Sent(local, from), local, cmds[1..], None)
  }

  /** Running commands one after another. */
  lemma ExecuteStep(remote: Bytes, local: Bytes, c: Command, rest: seq<Command>, marker: Option<nat>)
    ensures c.StatLookup? ==> Execute(remote, local, [c] + rest, marker) == Execute(remote, local, rest, marker)
    ensures c.Restart? ==> Execute(remote, local, [c] + rest, marker) == Execute(remote, local, rest, Some(c.offset))
    ensures c.Put? ==> (Execute(remote, local, [c] + rest, marker) ==
      Execute((if marker.Some? && marker.value <= |remote| then remote[..marker.value] else []) + Sent(local, c.from),
              local, rest, None))
  {
    assert ([c] + rest)[1..] == rest;
  }

  predicate HasPut(cmds: seq<Command>) {
    exists k :: 0 <= k < |cmds| && cmds[k].Put?
  }

  /** The remote object `stat` reports for a remote file of these bytes. */
  function Remote(bytes: Bytes, serverPath: string, name: string): StatOutcome {
    Found(StatResult(name, serverPath, |bytes|))
  }

  /**
   * The policy table: a transfer happens exactly for Cover, for Verify with
   * no remote object, and for Verify with a local file larger than the
   * remote one; a restart happens only in the last case and at the remote
   * size; Skip issues nothing; only Verify looks the remote object up; and,
   * before any transfer command, the promise rejects exactly when the Verify
   * lookup fails.
   */
  predicate PolicyTable(behavior: Behavior, remote: StatOutcome, localSize: nat, p: Plan) {
    && (HasPut(p.commands) <==>
          behavior == Cover || (behavior == Verify && remote.NotFound?) || Resumes(behavior, remote, localSize))
    && (forall k :: 0 <= k < |p.commands| && p.commands[k].Restart? ==>
          Resumes(behavior, remote, localSize) && p.commands[k].offset == remote.stat.size)
    && (behavior == Skip ==> p.commands == [])
    && (StatLookup in p.commands <==> behavior == Verify)
    && (p.rejects <==> behavior == Verify && remote.ListingFailed?)
  }

  /** The plan `upload` issues follows the policy table for every behaviour and lookup, and so does the corrected one. */
  lemma PlanTable(behavior: Behavior, remote: StatOutcome, localSize: nat)
    ensures PolicyTable(behavior, remote, localSize, UploadPlanAsWritten(behavior, remote, localSize))
    ensures PolicyTable(behavior, remote, localSize, UploadPlan(behavior, remote, localSize))
  {
    var w := UploadPlanAsWritten(behavior, remote, localSize);
    var p := UploadPlan(behavior, remote, localSize);
    if behavior == Cover || (behavior == Verify && remote.NotFound?) || Resumes(behavior, remote, localSize) {
      assert w.commands[|w.commands| - 1].Put?;
      assert p.commands[|p.commands| - 1].Put?;
    } else {
      assert forall k :: 0 <= k < |w.commands| ==> !w.commands[k].Put?;
    }
  }

  /** Cover always leaves the remote file equal to the local one. */
  lemma CoverOverwrites(remote: Bytes, local: Bytes, lookup: StatOutcome)
    ensures Execute(remote, local, UploadPlanAsWritten(Cover, lookup, |local|).commands, None) == local
  {
    assert local[0..] == local;
  }

  /** Skip never touches the remote file, and the upload resolves. */
  lemma SkipKeepsRemote(remote: Bytes, local: Bytes, lookup: StatOutcome)
    ensures Execute(remote, local, UploadPlanAsWritten(Skip, lookup, |local|).commands, None) == remote
    ensures !UploadPlanAsWritten(Skip, lookup, |local|).rejects
  {
  }

  /** Verify with no remote object uploads the whole file. */
  lemma VerifyAbsentUploads(remote: Bytes, local: Bytes)
    ensures Execute(remote, local, UploadPlanAsWritten(Verify, NotFound, |local|).commands, None) == local
  {
    assert local[0..] == local;
  }

  /** Verify with a remote object at least as large as the local file transfers nothing and resolves. */
  lemma VerifyKeepsLargerRemote(remote: Bytes, local: Bytes, serverPath: string, name: string)
    requires |local| <= |remote|
    ensures var p := UploadPlanAsWritten(Verify, Remote(remote, serverPath, name), |local|);
      Execute(remote, local, p.commands, None) == remote && !p.rejects && !HasPut(p.commands)
  {
  }

  /**
   * Resuming a partial upload with the corrected plan: when the remote file
   * is a proper prefix of the local one, Verify restarts at the remote size,
   * sends the rest of the local file, and the remote file ends equal to it.
   */
  lemma VerifyResumeCompletes(remote: Bytes, local: Bytes, serverPath: string, name: string)
    requires |remote| < |local| && local[..|remote|] == remote
    ensures var p := UploadPlan(Verify, Remote(remote, serverPath, name), |local|);
      p.commands == [StatLookup, Restart(|remote|), Put(|remote|)]
      && Execute(remote, local, p.commands, None) == local
  {
    var r := |remote|;
    ExecuteStep(remote, local, StatLookup, [Restart(r), Put(r)], None);
    ExecuteStep(remote, local, Restart(r), [Put(r)], None);
    ExecuteStep(remote, local, Put(r), [], Some(r));
    assert [StatLookup, Restart(r), Put(r)] == [StatLookup] + [Restart(r), Put(r)];
    assert [Restart(r), Put(r)] == [Restart(r)] + [Put(r)];
    assert [Put(r)] == [Put(r)] + [];
    assert remote[..r] == remote;
    assert remote + local[r..] == local;
  }

  /**
   * As written, resuming a partial upload appends the whole local file
   * after the kept prefix, so the remote file grows by the prefix length
   * and differs from the local one whenever something had been uploaded.
   */
  lemma AsWrittenResumeDuplicatesPrefix(remote: Bytes, local: Bytes, serverPath: string, name: string)
    requires 0 < |remote| < |local| && local[..|remote|] == remote
    ensures var p := UploadPlanAsWritten(Verify, Remote(remote, serverPath, name), |local|);
      var after := Execute(remote, local, p.commands, None);
      after == remote + local && |after| == |local| + |remote| && after != local
  {
    var r := |remote|;
    ExecuteStep(remote, local, StatLookup, [Restart(r), Put(0)], None);
    ExecuteStep(remote, local, Restart(r), [Put(0)], None);
    ExecuteStep(remote, local, Put(0), [], Some(r));
    assert [StatLookup, Restart(r), Put(0)] == [StatLookup] + [Restart(r), Put(0)];
    assert [Restart(r), Put(0)] == [Restart(r)] + [Put(0)];
    assert [Put(0)] == [Put(0)] + [];
    assert remote[..r] == remote;
    assert local[0..] == local;
    assert |remote + local| != |local|;
  }

  /** A concrete case: one byte already uploaded of a two-byte file leaves three bytes remotely. */
  lemma AsWrittenResumeExample()
    ensures var remote: Bytes := [1];
      var local: Bytes := [1, 2];
      Execute(remote, local, UploadPlanAsWritten(Verify, Remote(remote, "/f", "f"), |local|).commands, None) == [1, 1, 2]
  {
    var remote: Bytes := [1];
    var local: Bytes := [1, 2];
    AsWrittenResumeDuplicatesPrefix(remote, local, "/f", "f");
  }
}
