/** The newer variant's driver (src/runner.rs). `yoink_file` parses a
    descriptor, moves into its directory, runs the configured runner into an
    in-memory buffer, moves back, and only then overwrites the associated file
    with the buffer. `yoink_dir` runs every descriptor of a directory (and, when
    asked, of its subdirectories), carrying on past failures and failing at the
    end if any of them failed. The directory is restored only on success. */
module Runner {
  import opened Common
  import opened Paths
  import opened Fs
  import Dconf
  import Configuration

  /** `fs::read_to_string` followed by `toml::from_str`, taken as a black box. */
  type Parser = seq<byte> -> Option<Configuration.Config>

  /** The host after `yoink_file`: its result, tree, current directory and free space. */
  datatype Effect = Effect(outcome: Outcome<Error>, nodes: map<Path, Node>, cwd: Path, free: Capacity)

  /** What running the descriptor's runner from directory `here` into a fresh
      `Vec` gives. */
  function RunIntoBuffer(config: Configuration.Config, nodes: map<Path, Node>, here: Path, gvdb: Dconf.Decoder)
    : (Outcome<Error>, SinkState)
  {
    var runner := config.target.runner;
    Configuration.Spec(runner, ReadAt(nodes, Resolve(here, Configuration.SourceOf(runner))), gvdb, SinkState([], 0, Unlimited))
  }

  /** What `yoink_file(path)` does to a host with tree `nodes`, current
      directory `cwd` and free space `free`. */
  function YoinkFileSpec(nodes: map<Path, Node>, cwd: Path, free: Capacity, path: Path, toml: Parser, gvdb: Dconf.Decoder): Effect
    requires IsYoink(path)
  {
    match ReadAt(nodes, Resolve(cwd, path))
    case Err(e) => Effect(Fail(e), nodes, cwd, free)
    case Ok(text) =>
      match toml(text)
      case None => Effect(Fail(Malformed), nodes, cwd, free)
      case Some(config) =>
        var parent := Parent(path).value;
        if !CanEnter(nodes, cwd, parent) then Effect(Fail(IoFailure), nodes, cwd, free)
        else
          var here := Resolve(cwd, parent);
          var run := RunIntoBuffer(config, nodes, here, gvdb);
          if run.0.Fail? then Effect(run.0, nodes, here, free)
          else
            var out := run.1.data;
            var at := Resolve(cwd, WithoutExtension(path));
            if !CanOpenWrite(nodes, at) then Effect(Fail(IoFailure), nodes, cwd, free)
            else
              var tree := Opened(nodes, at);
              var size := |tree[at].data|;
              var k := Accepted(RoomFor(free, size), |out|);
              Effect(if k == |out| then Pass else Fail(IoFailure), tree[at := File(out[..k], tree[at].mode)], cwd, Settle(free, size, k))
  }

  /** `yoink_file(path)`: the caller has checked that `path` is a file with
      the `yoink` extension. */
  method YoinkFile(h: Host, path: Path, toml: Parser, gvdb: Dconf.Decoder) returns (r: Outcome<Error>)
    requires h.Valid() && h.IsFile(path) && IsYoink(path)
    modifies h`nodes, h`cwd, h`free
    ensures h.Valid()
    ensures var e := YoinkFileSpec(old(h.nodes), old(h.cwd), old(h.free), path, toml, gvdb);
      r == e.outcome && h.nodes == e.nodes && h.cwd == e.cwd && h.free == e.free
  {
    var content := h.Read(path);
    if content.Err? {
      return Fail(content.error);
    }
    var config := toml(content.value);
    if config.None? {
      return Fail(Malformed);
    }
    var parent := Parent(path).value;
    var working := h.cwd;
    var entered := h.SetCurrentDir(parent);
    if entered.Fail? {
      return Fail(IoFailure);
    }
    var buffer := new Sink.Buffer();
    var ran := Configuration.Yoink(config.value.target.runner, h, gvdb, buffer);
    if ran.Fail? {
      return ran;
    }
    // the runner only reads, so the directory we came from is still there
    var back := h.SetCurrentDir(working);
    assert back.Pass?;
    r := h.WriteFile(WithoutExtension(path), buffer.data);
  }

  /** On success the current directory is where it was before, and the
      associated file (the descriptor path without its extension) holds exactly
      the runner's output. */
  lemma SuccessRestores(nodes: map<Path, Node>, cwd: Path, free: Capacity, path: Path, toml: Parser, gvdb: Dconf.Decoder)
    requires IsYoink(path)
    ensures var e := YoinkFileSpec(nodes, cwd, free, path, toml, gvdb);
      e.outcome.Pass? ==>
        var config := toml(ReadAt(nodes, Resolve(cwd, path)).value).value;
        var at := Resolve(cwd, WithoutExtension(path));
        && e.cwd == cwd
        && at in e.nodes && e.nodes[at].File?
        && e.nodes[at].data == RunIntoBuffer(config, nodes, Resolve(cwd, Parent(path).value), gvdb).1.data
        && (forall q :: q in nodes && q != at ==> q in e.nodes && e.nodes[q] == nodes[q])
  {
    var e := YoinkFileSpec(nodes, cwd, free, path, toml, gvdb);
    if e.outcome.Pass? {
      var config := toml(ReadAt(nodes, Resolve(cwd, path)).value).value;
      var out := RunIntoBuffer(config, nodes, Resolve(cwd, Parent(path).value), gvdb).1.data;
      assert out[..|out|] == out;
    }
  }

  /** A runner that fails leaves the tree as it was (the buffer was never
      written out) and the current directory at the descriptor's parent. */
  lemma RunnerFailureStaysInParent(nodes: map<Path, Node>, cwd: Path, free: Capacity, path: Path, toml: Parser, gvdb: Dconf.Decoder)
    requires IsYoink(path)
    requires ReadAt(nodes, Resolve(cwd, path)).Ok?
    requires toml(ReadAt(nodes, Resolve(cwd, path)).value).Some?
    requires CanEnter(nodes, cwd, Parent(path).value)
    requires var config := toml(ReadAt(nodes, Resolve(cwd, path)).value).value;
      RunIntoBuffer(config, nodes, Resolve(cwd, Parent(path).value), gvdb).0.Fail?
    ensures var e := YoinkFileSpec(nodes, cwd, free, path, toml, gvdb);
      && e.outcome.Fail?
      && e.nodes == nodes && e.free == free
      && e.cwd == Resolve(cwd, Parent(path).value)
      && (!path.absolute ==> e.cwd != cwd)
  {
    var parent := Parent(path).value;
    if !path.absolute {
      assert |Resolve(cwd, parent).names| == |cwd.names| + |parent.names|;
    }
  }

  /** Every failure before the final write leaves the tree and the free space
      untouched: the associated file is written only after everything else
      succeeded. A failure in the final write is the only one that changes it. */
  lemma EarlyFailureUntouched(nodes: map<Path, Node>, cwd: Path, free: Capacity, path: Path, toml: Parser, gvdb: Dconf.Decoder)
    requires IsYoink(path)
    ensures var e := YoinkFileSpec(nodes, cwd, free, path, toml, gvdb);
      (e.nodes != nodes || e.free != free) ==>
        && ReadAt(nodes, Resolve(cwd, path)).Ok?
        && toml(ReadAt(nodes, Resolve(cwd, path)).value).Some?
        && CanEnter(nodes, cwd, Parent(path).value)
        && RunIntoBuffer(toml(ReadAt(nodes, Resolve(cwd, path)).value).value, nodes, Resolve(cwd, Parent(path).value), gvdb).0.Pass?
        && CanOpenWrite(nodes, Resolve(cwd, WithoutExtension(path)))
        && e.cwd == cwd
  {
  }

  /** The `bytes` runner copies its file: on success the associated file is a
      copy of the resource, resolved from the descriptor's directory. */
  lemma BytesCopies(nodes: map<Path, Node>, cwd: Path, free: Capacity, path: Path, toml: Parser, gvdb: Dconf.Decoder)
    requires IsYoink(path)
    ensures var e := YoinkFileSpec(nodes, cwd, free, path, toml, gvdb);
      e.outcome.Pass? ==>
        var config := toml(ReadAt(nodes, Resolve(cwd, path)).value);
        config.value.target.runner.Bytes? ==>
        var res := Resolve(Resolve(cwd, Parent(path).value), config.value.target.runner.bytes.path);
        var at := Resolve(cwd, WithoutExtension(path));
        && ReadAt(nodes, res).Ok?
        && e.nodes[at].File? && e.nodes[at].data == ReadAt(nodes, res).value
  {
    var e := YoinkFileSpec(nodes, cwd, free, path, toml, gvdb);
    if e.outcome.Pass? {
      var config := toml(ReadAt(nodes, Resolve(cwd, path)).value).value;
      if config.target.runner.Bytes? {
        SuccessRestores(nodes, cwd, free, path, toml, gvdb);
        var res := Resolve(Resolve(cwd, Parent(path).value), config.target.runner.bytes.path);
        Configuration.IntoBuffer(config.target.runner, ReadAt(nodes, res).value, gvdb);
      }
    }
  }

  /** What one entry of a `yoink_dir` walk does to the host, and whether it
      counts as a failure. A subdirectory is taken first, and only when
      `recursive`; then a `.yoink` file; anything else is passed over. Both
      checks read the host as the earlier entries left it. A subdirectory met
      at depth 0 is not entered and counts as a failure. */
  function EntrySpec(st: HostState, dir: Path, e: Entry, recursive: bool, toml: Parser, gvdb: Dconf.Decoder, depth: nat)
    : (bool, HostState)
    decreases depth, 0, 0
  {
    match e
    case Unreadable => (true, Noted(st, Problem(EntryUnreadable, Some(dir))))
    case Found(name) =>
      var sub := Join(dir, name);
      var kind := KindFrom(st.nodes, st.cwd, sub);
      if kind == Some(DirKind) && recursive then
        if depth == 0 then (true, Noted(st, Problem(SyncFailed, Some(sub))))
        else
          var inner := DirSpec(st, sub, recursive, toml, gvdb, depth - 1);
          if inner.0.Fail? then (true, Noted(inner.1, Problem(SyncFailed, Some(sub)))) else (false, inner.1)
      else if kind == Some(FileKind) && IsYoink(sub) then
        var e := YoinkFileSpec(st.nodes, st.cwd, st.free, sub, toml, gvdb);
        var after := HostState(e.nodes, e.cwd, e.free, st.log);
        if e.outcome.Fail? then (true, Noted(after, Problem(SyncFailed, Some(sub)))) else (false, after)
      else (false, st)
  }

  /** The entries `rest` handled one after the other from `st`, with `failed`
      recording whether an earlier entry failed. */
  function EntriesSpec(st: HostState, failed: bool, dir: Path, rest: seq<Entry>, recursive: bool, toml: Parser, gvdb: Dconf.Decoder, depth: nat)
    : (bool, HostState)
    decreases depth, 1, |rest|
  {
    if rest == [] then (failed, st)
    else
      var step := EntrySpec(st, dir, rest[0], recursive, toml, gvdb, depth);
      EntriesSpec(step.1, failed || step.0, dir, rest[1..], recursive, toml, gvdb, depth)
  }

  /** What `yoink_dir(dir, recursive)` does to a host in state `st`. */
  function DirSpec(st: HostState, dir: Path, recursive: bool, toml: Parser, gvdb: Dconf.Decoder, depth: nat)
    : (Outcome<Error>, HostState)
    decreases depth, 2, 0
  {
    match ListingOf(st.nodes, st.cwd, dir)
    case Denied => (Fail(IoFailure), st)
    case Entries(items) =>
      var run := EntriesSpec(st, false, dir, items, recursive, toml, gvdb, depth);
      (if run.0 then Fail(SomeFailed) else Pass, run.1)
  }

  /** `yoink_dir(path, recursive)`: the caller has checked that `dir` is a
      directory. Recursion is bounded by `depth`. */
  method YoinkDir(h: Host, dir: Path, recursive: bool, toml: Parser, gvdb: Dconf.Decoder, depth: nat)
    returns (r: Outcome<Error>)
    requires h.Valid() && h.IsDir(dir)
    modifies h`nodes, h`cwd, h`free, h`log
    ensures h.Valid()
    ensures (r, h.State()) == DirSpec(old(h.State()), dir, recursive, toml, gvdb, depth)
    decreases depth
  {
    ghost var start := h.State();
    var listing := ListingOf(h.nodes, h.cwd, dir);
    if listing.Denied? {
      return Fail(IoFailure);
    }
    var items := listing.items;
    var failed := false;
    var i := 0;
    while i < |items|
      invariant 0 <= i <= |items|
      invariant h.Valid()
      invariant EntriesSpec(h.State(), failed, dir, items[i..], recursive, toml, gvdb, depth)
             == EntriesSpec(start, false, dir, items, recursive, toml, gvdb, depth)
      decreases |items| - i
    {
      ghost var before := h.State();
      ghost var wasFailed := failed;
      match items[i] {
        case Unreadable =>
          h.Say(Problem(EntryUnreadable, Some(dir)));
          failed := true;
        case Found(name) =>
          var sub := Join(dir, name);
          if h.IsDir(sub) && recursive {
            if depth == 0 {
              h.Say(Problem(SyncFailed, Some(sub)));
              failed := true;
            } else {
              var inner := YoinkDir(h, sub, recursive, toml, gvdb, depth - 1);
              if inner.Fail? {
                h.Say(Problem(SyncFailed, Some(sub)));
                failed := true;
              }
            }
          } else if h.IsFile(sub) && IsYoink(sub) {
            var synced := YoinkFile(h, sub, toml, gvdb);
            if synced.Fail? {
              h.Say(Problem(SyncFailed, Some(sub)));
              failed := true;
            }
          }
      }
      ghost var step := EntrySpec(before, dir, items[i], recursive, toml, gvdb, depth);
      assert h.State() == step.1 && failed == (wasFailed || step.0);
      assert items[i..][1..] == items[i + 1..];
      i := i + 1;
    }
    assert items[i..] == [];
    if failed {
      return Fail(SomeFailed);
    }
    r := Pass;
  }

  /** The host states a walk over `rest` passes through: the one each entry
      starts from, then the final one. */
  function Trace(st: HostState, dir: Path, rest: seq<Entry>, recursive: bool, toml: Parser, gvdb: Dconf.Decoder, depth: nat)
    : (pre: seq<HostState>)
    ensures |pre| == |rest| + 1 && pre[0] == st
    decreases |rest|
  {
    if rest == [] then [st]
    else [st] + Trace(EntrySpec(st, dir, rest[0], recursive, toml, gvdb, depth).1, dir, rest[1..], recursive, toml, gvdb, depth)
  }

  lemma {:induction false} EntriesByTrace(st: HostState, failed: bool, dir: Path, rest: seq<Entry>, recursive: bool, toml: Parser, gvdb: Dconf.Decoder, depth: nat)
    ensures var pre := Trace(st, dir, rest, recursive, toml, gvdb, depth);
      var r := EntriesSpec(st, failed, dir, rest, recursive, toml, gvdb, depth);
      && pre[|rest|] == r.1
      && (forall k :: 0 <= k < |rest| ==> pre[k + 1] == EntrySpec(pre[k], dir, rest[k], recursive, toml, gvdb, depth).1)
      && (r.0 <==> failed || exists k :: 0 <= k < |rest| && EntrySpec(pre[k], dir, rest[k], recursive, toml, gvdb, depth).0)
    decreases |rest|
  {
    if rest != [] {
      var step := EntrySpec(st, dir, rest[0], recursive, toml, gvdb, depth);
      var tail := Trace(step.1, dir, rest[1..], recursive, toml, gvdb, depth);
      var pre := Trace(st, dir, rest, recursive, toml, gvdb, depth);
      EntriesByTrace(step.1, failed || step.0, dir, rest[1..], recursive, toml, gvdb, depth);
      assert pre == [st] + tail;
      forall k | 1 <= k < |rest|
        ensures pre[k + 1] == EntrySpec(pre[k], dir, rest[k], recursive, toml, gvdb, depth).1
        ensures EntrySpec(pre[k], dir, rest[k], recursive, toml, gvdb, depth)
             == EntrySpec(tail[k - 1], dir, rest[1..][k - 1], recursive, toml, gvdb, depth)
      {
        assert pre[k] == tail[k - 1] && pre[k + 1] == tail[k] && rest[k] == rest[1..][k - 1];
      }
      var r := EntriesSpec(st, failed, dir, rest, recursive, toml, gvdb, depth);
      if r.0 && !failed && !step.0 {
        var j :| 0 <= j < |rest[1..]| && EntrySpec(tail[j], dir, rest[1..][j], recursive, toml, gvdb, depth).0;
        assert EntrySpec(pre[j + 1], dir, rest[j + 1], recursive, toml, gvdb, depth).0;
      }
      if !failed && exists k :: 0 <= k < |rest| && EntrySpec(pre[k], dir, rest[k], recursive, toml, gvdb, depth).0 {
        var k :| 0 <= k < |rest| && EntrySpec(pre[k], dir, rest[k], recursive, toml, gvdb, depth).0;
        if k > 0 {
          assert EntrySpec(tail[k - 1], dir, rest[1..][k - 1], recursive, toml, gvdb, depth).0;
        }
      }
    }
  }

  /** `yoink_dir` handles every entry of a listable directory in order, each
      from the host the entries before it left, whatever failed before it. It
      succeeds exactly when no entry failed, and otherwise reports that one
      or more paths could not be synced. */
  lemma WalkByEntries(st: HostState, dir: Path, recursive: bool, toml: Parser, gvdb: Dconf.Decoder, depth: nat)
    requires ListingOf(st.nodes, st.cwd, dir).Entries?
    ensures var items := ListingOf(st.nodes, st.cwd, dir).items;
      var pre := Trace(st, dir, items, recursive, toml, gvdb, depth);
      var r := DirSpec(st, dir, recursive, toml, gvdb, depth);
      && |pre| == |items| + 1 && pre[0] == st && pre[|items|] == r.1
      && (forall k :: 0 <= k < |items| ==> pre[k + 1] == EntrySpec(pre[k], dir, items[k], recursive, toml, gvdb, depth).1)
      && (r.0 == Pass <==> forall k :: 0 <= k < |items| ==> !EntrySpec(pre[k], dir, items[k], recursive, toml, gvdb, depth).0)
      && (r.0 != Pass ==> r.0 == Fail(SomeFailed))
  {
    EntriesByTrace(st, false, dir, ListingOf(st.nodes, st.cwd, dir).items, recursive, toml, gvdb, depth);
  }

  /** An entry that cannot be read fails the whole walk, though the walk
      carries on past it. */
  lemma UnreadableEntryFails(st: HostState, dir: Path, recursive: bool, toml: Parser, gvdb: Dconf.Decoder, depth: nat)
    requires ListingOf(st.nodes, st.cwd, dir).Entries?
    requires Unreadable in ListingOf(st.nodes, st.cwd, dir).items
    ensures DirSpec(st, dir, recursive, toml, gvdb, depth).0 == Fail(SomeFailed)
  {
    var items := ListingOf(st.nodes, st.cwd, dir).items;
    WalkByEntries(st, dir, recursive, toml, gvdb, depth);
    var k :| 0 <= k < |items| && items[k] == Unreadable;
    var pre := Trace(st, dir, items, recursive, toml, gvdb, depth);
    assert EntrySpec(pre[k], dir, items[k], recursive, toml, gvdb, depth).0;
  }

  /** Once an entry has failed, the walk fails. */
  lemma {:induction false} FailureSticks(st: HostState, dir: Path, rest: seq<Entry>, recursive: bool, toml: Parser, gvdb: Dconf.Decoder, depth: nat)
    ensures EntriesSpec(st, true, dir, rest, recursive, toml, gvdb, depth).0
    decreases |rest|
  {
    if rest != [] {
      var step := EntrySpec(st, dir, rest[0], recursive, toml, gvdb, depth);
      FailureSticks(step.1, dir, rest[1..], recursive, toml, gvdb, depth);
    }
  }

  /** A walk that succeeds, at any depth, leaves the current directory where
      it was and prints nothing: every sync in it succeeded and moved back. */
  lemma {:induction false} WalkPassRestores(st: HostState, dir: Path, recursive: bool, toml: Parser, gvdb: Dconf.Decoder, depth: nat)
    ensures var r := DirSpec(st, dir, recursive, toml, gvdb, depth);
      r.0.Pass? ==> r.1.cwd == st.cwd && r.1.log == st.log
    decreases depth, 2, 0
  {
    if ListingOf(st.nodes, st.cwd, dir).Entries? {
      EntriesPassRestore(st, dir, ListingOf(st.nodes, st.cwd, dir).items, recursive, toml, gvdb, depth);
    }
  }

  lemma {:induction false} EntriesPassRestore(st: HostState, dir: Path, rest: seq<Entry>, recursive: bool, toml: Parser, gvdb: Dconf.Decoder, depth: nat)
    ensures var r := EntriesSpec(st, false, dir, rest, recursive, toml, gvdb, depth);
      !r.0 ==> r.1.cwd == st.cwd && r.1.log == st.log
    decreases depth, 1, |rest|
  {
    if rest != [] {
      var step := EntrySpec(st, dir, rest[0], recursive, toml, gvdb, depth);
      EntryPassRestores(st, dir, rest[0], recursive, toml, gvdb, depth);
      if step.0 {
        FailureSticks(step.1, dir, rest[1..], recursive, toml, gvdb, depth);
      } else {
        EntriesPassRestore(step.1, dir, rest[1..], recursive, toml, gvdb, depth);
      }
    }
  }

  lemma {:induction false} EntryPassRestores(st: HostState, dir: Path, e: Entry, recursive: bool, toml: Parser, gvdb: Dconf.Decoder, depth: nat)
    ensures var r := EntrySpec(st, dir, e, recursive, toml, gvdb, depth);
      !r.0 ==> r.1.cwd == st.cwd && r.1.log == st.log
    decreases depth, 0, 0
  {
    if e.Found? {
      var sub := Join(dir, e.name);
      var kind := KindFrom(st.nodes, st.cwd, sub);
      if kind == Some(DirKind) && recursive {
        if depth > 0 {
          WalkPassRestores(st, sub, recursive, toml, gvdb, depth - 1);
        }
      } else if kind == Some(FileKind) && IsYoink(sub) {
        SuccessRestores(st.nodes, st.cwd, st.free, sub, toml, gvdb);
      }
    }
  }

  /** A walk that does not recurse, over a directory whose entries all read
      and none of which is a `.yoink` path, succeeds and changes nothing. */
  lemma QuietWalk(st: HostState, dir: Path, toml: Parser, gvdb: Dconf.Decoder, depth: nat)
    requires ListingOf(st.nodes, st.cwd, dir).Entries?
    requires var items := ListingOf(st.nodes, st.cwd, dir).items;
      forall k :: 0 <= k < |items| ==> items[k].Found? && !IsYoink(Join(dir, items[k].name))
    ensures DirSpec(st, dir, false, toml, gvdb, depth) == (Pass, st)
  {
    QuietEntries(st, dir, ListingOf(st.nodes, st.cwd, dir).items, toml, gvdb, depth);
  }

  lemma {:induction false} QuietEntries(st: HostState, dir: Path, rest: seq<Entry>, toml: Parser, gvdb: Dconf.Decoder, depth: nat)
    requires forall k :: 0 <= k < |rest| ==> rest[k].Found? && !IsYoink(Join(dir, rest[k].name))
    ensures EntriesSpec(st, false, dir, rest, false, toml, gvdb, depth) == (false, st)
    decreases |rest|
  {
    if rest != [] {
      assert EntrySpec(st, dir, rest[0], false, toml, gvdb, depth) == (false, st);
      QuietEntries(st, dir, rest[1..], toml, gvdb, depth);
    }
  }
}
