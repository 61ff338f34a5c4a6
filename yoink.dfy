/** The older pull/push variant (src/yoink.rs): load a `.yoink` descriptor,
    open its associated file (the descriptor path without its extension), move
    into the descriptor's directory, and pull the resource into the associated
    file or push the associated file into the resource; over a directory, do
    this for every descriptor in it, optionally recursing into subdirectories.
    The current directory is changed and never restored. */
module Yoink {
  import opened Common
  import opened Paths
  import opened Fs
  import opened StyleBytes

  /** The descriptor: `[target]` with `style = "bytes"` and its fields. */
  datatype Style = BytesStyle(bytes: Bytes)
  datatype Target = Target(style: Style)
  datatype Config = Config(target: Target)

  /** `fs::read_to_string` followed by `toml::from_str`, taken as a black box
      over the file's bytes (invalid UTF-8 is one of its failures). */
  type Parser = seq<byte> -> Option<Config>

  datatype Direction = Pull | Push

  /** The host after one step: tree, current directory, free space and the
      lines printed by the step. */
  datatype Effect = Effect(nodes: map<Path, Node>, cwd: Path, free: Capacity, reports: seq<Report>)

  /** `load_config`: the extension is checked before anything is read. */
  function LoadConfig(nodes: map<Path, Node>, cwd: Path, path: Path, parse: Parser): (r: Result<Config, Stage>)
    ensures !IsYoink(path) ==> r == Err(NoYoinkExtension)
    ensures r.Ok? <==>
      IsYoink(path) && ReadAt(nodes, Resolve(cwd, path)).Ok? && parse(ReadAt(nodes, Resolve(cwd, path)).value).Some?
    ensures r.Ok? ==> parse(ReadAt(nodes, Resolve(cwd, path)).value) == Some(r.value)
  {
    if !IsYoink(path) then Err(NoYoinkExtension)
    else match ReadAt(nodes, Resolve(cwd, path))
      case Err(_) => Err(DescriptorUnreadable)
      case Ok(text) =>
        match parse(text)
        case None => Err(DescriptorMalformed)
        case Some(config) => Ok(config)
  }

  /** `set_current_dir_relative_to_file`: enter the descriptor's parent
      directory; `false` after printing why when that fails. */
  method SetCurrentDirRelativeToFile(h: Host, path: Path) returns (ok: bool)
    requires h.Valid()
    modifies h`cwd, h`log
    ensures h.Valid()
    ensures ok <==> Parent(path).Some? && CanEnter(h.nodes, old(h.cwd), Parent(path).value)
    ensures h.cwd == if ok then Resolve(old(h.cwd), Parent(path).value) else old(h.cwd)
    ensures ok ==> h.log == old(h.log)
    ensures Parent(path).None? ==> h.log == old(h.log) + [Problem(NoParent, Some(path))]
    ensures Parent(path).Some? && !ok ==> h.log == old(h.log) + [Problem(DirNotEntered, Parent(path))]
  {
    if Parent(path).None? {
      h.Say(Problem(NoParent, Some(path)));
      return false;
    }
    var parent := Parent(path).value;
    var entered := h.SetCurrentDir(parent);
    if entered.Fail? {
      h.Say(Problem(DirNotEntered, Some(parent)));
      return false;
    }
    ok := true;
  }

  /** What `pull_file` does to a host with tree `nodes`, current directory
      `cwd` and free space `free`. */
  function PullFileSpec(nodes: map<Path, Node>, cwd: Path, free: Capacity, path: Path, parse: Parser): Effect
  {
    match LoadConfig(nodes, cwd, path, parse)
    case Err(stage) => Effect(nodes, cwd, free, [Problem(stage, Some(path))])
    case Ok(config) =>
      var target := WithoutExtension(path);
      var at := Resolve(cwd, target);
      if !CanOpenWrite(nodes, at) then Effect(nodes, cwd, free, [Problem(TargetNotCreated, Some(target))])
      else
        var tree := Opened(nodes, at);
        match Parent(path)
        case None => Effect(tree, cwd, free, [Problem(NoParent, Some(path))])
        case Some(parent) =>
          if !CanEnter(tree, cwd, parent) then Effect(tree, cwd, free, [Problem(DirNotEntered, Some(parent))])
          else
            var here := Resolve(cwd, parent);
            var res := config.target.style.bytes;
            var size := |tree[at].data|;
            var room := RoomFor(free, size);
            var read := ReadAt(tree, Resolve(here, res.path));
            var pulled := PullSpec(res, read, SinkState(tree[at].data, 0, room));
            PullBudgeted(res, read, SinkState(tree[at].data, 0, room), room);
            var s := pulled.1;
            match pulled.0
            case None => Effect(tree[at := File(s.data, tree[at].mode)], here, Settle(free, size, |s.data|), pulled.2)
            case Some(n) =>
              // the cursor sits at `n`, so `set_len(n)` cuts
              var t := SetLenState(s, n);
              Effect(tree[at := File(t.data, tree[at].mode)], here, Settle(free, size, n), [Pulled(path)])
  }

  /** `pull_file`. */
  method PullFile(h: Host, path: Path, parse: Parser)
    requires h.Valid()
    modifies h
    ensures h.Valid()
    ensures var e := PullFileSpec(old(h.nodes), old(h.cwd), old(h.free), path, parse);
      h.nodes == e.nodes && h.cwd == e.cwd && h.free == e.free && h.log == old(h.log) + e.reports
  {
    var loaded := LoadConfig(h.nodes, h.cwd, path, parse);
    if loaded.Err? {
      h.Say(Problem(loaded.error, Some(path)));
      return;
    }
    var config := loaded.value;
    var targetPath := WithoutExtension(path);
    var at := h.Abs(targetPath);
    var handle := h.OpenWrite(targetPath);
    if handle.Err? {
      h.Say(Problem(TargetNotCreated, Some(targetPath)));
      return;
    }
    var target := handle.value;
    ghost var start := target.State();
    var entered := SetCurrentDirRelativeToFile(h, path);
    if !entered {
      return;
    }
    ghost var read := h.Read(config.target.style.bytes.path);
    var length := StyleBytes.Pull(config.target.style.bytes, h, target);
    PullBudgeted(config.target.style.bytes, read, start, start.room);
    if length.None? {
      h.Close(at, target);
      return;
    }
    target.SetLen(length.value);
    h.Close(at, target);
    h.Say(Pulled(path));
  }

  /** If the descriptor does not load, the associated file is neither opened
      nor created and the current directory does not move. */
  lemma PullFileLoadFails(nodes: map<Path, Node>, cwd: Path, free: Capacity, path: Path, parse: Parser)
    requires LoadConfig(nodes, cwd, path, parse).Err?
    ensures var e := PullFileSpec(nodes, cwd, free, path, parse);
      e.nodes == nodes && e.cwd == cwd && e.free == free
      && e.reports == [Problem(LoadConfig(nodes, cwd, path, parse).error, Some(path))]
  {
  }

  /** "Pulled" is printed exactly when every step succeeded, and then the
      associated file (the descriptor path without its extension, resolved
      where the pull started) holds exactly the resource's bytes, whatever
      longer content it held before; the current directory is left at the
      descriptor's parent. */
  lemma PullFileExact(nodes: map<Path, Node>, cwd: Path, free: Capacity, path: Path, parse: Parser)
    ensures var at := Resolve(cwd, WithoutExtension(path));
      var tree := Opened(nodes, at);
      var e := PullFileSpec(nodes, cwd, free, path, parse);
      (&& LoadConfig(nodes, cwd, path, parse).Ok?
       && CanOpenWrite(nodes, at)
       && Parent(path).Some?
       && CanEnter(tree, cwd, Parent(path).value)
       && var res := LoadConfig(nodes, cwd, path, parse).value.target.style.bytes.path;
          var read := ReadAt(tree, Resolve(Resolve(cwd, Parent(path).value), res));
          && read.Ok?
          && Fits(RoomFor(free, |tree[at].data|), |read.value|))
      ==> Pulled(path) in e.reports
    ensures var e := PullFileSpec(nodes, cwd, free, path, parse);
      var at := Resolve(cwd, WithoutExtension(path));
      Pulled(path) in e.reports ==>
        && LoadConfig(nodes, cwd, path, parse).Ok?
        && Parent(path).Some?
        && e.cwd == Resolve(cwd, Parent(path).value)
        && var res := LoadConfig(nodes, cwd, path, parse).value.target.style.bytes.path;
           && ReadAt(Opened(nodes, at), Resolve(e.cwd, res)).Ok?
           && at in e.nodes && e.nodes[at].File?
           && e.nodes[at].data == ReadAt(Opened(nodes, at), Resolve(e.cwd, res)).value
  {
    var e := PullFileSpec(nodes, cwd, free, path, parse);
    if Pulled(path) in e.reports {
      var config := LoadConfig(nodes, cwd, path, parse).value;
      var at := Resolve(cwd, WithoutExtension(path));
      var tree := Opened(nodes, at);
      var here := Resolve(cwd, Parent(path).value);
      var res := config.target.style.bytes;
      var read := ReadAt(tree, Resolve(here, res.path));
      var room := RoomFor(free, |tree[at].data|);
      var pulled := PullSpec(res, read, SinkState(tree[at].data, 0, room));
      assert pulled.0.Some?;
      OverwriteThenTruncate(tree[at].data, room, read.value);
    }
  }

  /** When the backend returns no length, "Pulled" is not printed and nothing
      is cut: an unreadable resource leaves the (possibly just created)
      associated file exactly as it was opened, and a write that runs short
      has already overwritten all of the old content: the file then holds
      exactly the first free-plus-old-size bytes of the resource. */
  lemma PullFileNoLength(nodes: map<Path, Node>, cwd: Path, free: Capacity, path: Path, parse: Parser)
    requires LoadConfig(nodes, cwd, path, parse).Ok?
    requires CanOpenWrite(nodes, Resolve(cwd, WithoutExtension(path)))
    requires Parent(path).Some?
    requires CanEnter(Opened(nodes, Resolve(cwd, WithoutExtension(path))), cwd, Parent(path).value)
    ensures var at := Resolve(cwd, WithoutExtension(path));
      var tree := Opened(nodes, at);
      var res := LoadConfig(nodes, cwd, path, parse).value.target.style.bytes.path;
      var read := ReadAt(tree, Resolve(Resolve(cwd, Parent(path).value), res));
      var e := PullFileSpec(nodes, cwd, free, path, parse);
      var room := RoomFor(free, |tree[at].data|);
      && (read.Err? ==> Pulled(path) !in e.reports && e.nodes == tree && e.free == free)
      && (read.Ok? && !Fits(room, |read.value|) ==>
            && Pulled(path) !in e.reports
            && at in e.nodes && e.nodes[at].File?
            && |e.nodes[at].data| >= |tree[at].data|
            && e.nodes[at].data[..Accepted(room, |read.value|)] == read.value[..Accepted(room, |read.value|)]
            && Accepted(room, |read.value|) >= |tree[at].data|
            && e.nodes[at].data == read.value[..Accepted(room, |read.value|)])
  {
    var at := Resolve(cwd, WithoutExtension(path));
    var tree := Opened(nodes, at);
    assert tree[at := File(tree[at].data, tree[at].mode)] == tree;
  }

  /** Overwriting takes no new space: on a full device, a pull whose resource
      is no longer than the associated file still succeeds, and the bytes the
      file gave up by getting shorter are free again. */
  lemma PullOnFullDevice(nodes: map<Path, Node>, cwd: Path, path: Path, parse: Parser)
    requires LoadConfig(nodes, cwd, path, parse).Ok?
    requires CanOpenWrite(nodes, Resolve(cwd, WithoutExtension(path)))
    requires Parent(path).Some?
    requires CanEnter(Opened(nodes, Resolve(cwd, WithoutExtension(path))), cwd, Parent(path).value)
    requires var at := Resolve(cwd, WithoutExtension(path));
      var tree := Opened(nodes, at);
      var res := LoadConfig(nodes, cwd, path, parse).value.target.style.bytes.path;
      var read := ReadAt(tree, Resolve(Resolve(cwd, Parent(path).value), res));
      read.Ok? && |read.value| <= |tree[at].data|
    ensures var at := Resolve(cwd, WithoutExtension(path));
      var tree := Opened(nodes, at);
      var res := LoadConfig(nodes, cwd, path, parse).value.target.style.bytes.path;
      var read := ReadAt(tree, Resolve(Resolve(cwd, Parent(path).value), res));
      var e := PullFileSpec(nodes, cwd, Limited(0), path, parse);
      Pulled(path) in e.reports && e.free == Limited(|tree[at].data| - |read.value|)
  {
  }

  /** Space is balanced across a pull: once the associated file can be
      opened, the free space plus its length is the same afterwards as when it
      was opened, whatever the pull wrote or cut. */
  lemma PullSpaceBalance(nodes: map<Path, Node>, cwd: Path, n: nat, path: Path, parse: Parser)
    requires LoadConfig(nodes, cwd, path, parse).Ok?
    requires CanOpenWrite(nodes, Resolve(cwd, WithoutExtension(path)))
    ensures var at := Resolve(cwd, WithoutExtension(path));
      var e := PullFileSpec(nodes, cwd, Limited(n), path, parse);
      && at in e.nodes && e.nodes[at].File? && e.free.Limited?
      && e.free.n + |e.nodes[at].data| == n + |Opened(nodes, at)[at].data|
  {
  }

  /** What `push_file` does to a host. */
  function PushFileSpec(nodes: map<Path, Node>, cwd: Path, free: Capacity, path: Path, parse: Parser): Effect
  {
    match LoadConfig(nodes, cwd, path, parse)
    case Err(stage) => Effect(nodes, cwd, free, [Problem(stage, Some(path))])
    case Ok(config) =>
      var source := WithoutExtension(path);
      match OpenReadAt(nodes, Resolve(cwd, source))
      case Err(_) => Effect(nodes, cwd, free, [Problem(SourceNotOpened, Some(source))])
      case Ok(reader) =>
        match Parent(path)
        case None => Effect(nodes, cwd, free, [Problem(NoParent, Some(path))])
        case Some(parent) =>
          if !CanEnter(nodes, cwd, parent) then Effect(nodes, cwd, free, [Problem(DirNotEntered, Some(parent))])
          else
            var here := Resolve(cwd, parent);
            var pushed := PushSpec(config.target.style.bytes, reader.content, nodes, here, free);
            Effect(pushed.0, here, pushed.1, pushed.2 + [Pushed(path)])
  }

  /** `push_file`. */
  method PushFile(h: Host, path: Path, parse: Parser)
    requires h.Valid()
    modifies h
    ensures h.Valid()
    ensures var e := PushFileSpec(old(h.nodes), old(h.cwd), old(h.free), path, parse);
      h.nodes == e.nodes && h.cwd == e.cwd && h.free == e.free && h.log == old(h.log) + e.reports
  {
    var loaded := LoadConfig(h.nodes, h.cwd, path, parse);
    if loaded.Err? {
      h.Say(Problem(loaded.error, Some(path)));
      return;
    }
    var config := loaded.value;
    var sourcePath := WithoutExtension(path);
    var handle := h.OpenRead(sourcePath);
    if handle.Err? {
      h.Say(Problem(SourceNotOpened, Some(sourcePath)));
      return;
    }
    var entered := SetCurrentDirRelativeToFile(h, path);
    if !entered {
      return;
    }
    StyleBytes.Push(config.target.style.bytes, h, handle.value);
    h.Say(Pushed(path));
  }

  /** Push stops before touching anything when the associated file cannot be
      opened for reading; and once the directory is entered "Pushed" is
      printed whether or not the backend's push succeeded. */
  lemma PushFileSourceRule(nodes: map<Path, Node>, cwd: Path, free: Capacity, path: Path, parse: Parser)
    requires LoadConfig(nodes, cwd, path, parse).Ok?
    ensures var e := PushFileSpec(nodes, cwd, free, path, parse);
      && (OpenReadAt(nodes, Resolve(cwd, WithoutExtension(path))).Err? ==>
            e.nodes == nodes && e.cwd == cwd && e.free == free
            && e.reports == [Problem(SourceNotOpened, Some(WithoutExtension(path)))])
      && ((OpenReadAt(nodes, Resolve(cwd, WithoutExtension(path))).Ok? && Parent(path).Some?
           && CanEnter(nodes, cwd, Parent(path).value))
          ==> e.reports[|e.reports| - 1] == Pushed(path))
  {
  }

  /** Pulling a descriptor and then, from the same starting directory,
      pushing it back leaves the resource holding exactly the bytes the pull
      read, whatever it held in between, when the push reports no problem. */
  lemma PullThenPush(nodes: map<Path, Node>, cwd: Path, free: Capacity, path: Path, parse: Parser)
    requires cwd.absolute
    ensures var pulled := PullFileSpec(nodes, cwd, free, path, parse);
      var pushed := PushFileSpec(pulled.nodes, cwd, pulled.free, path, parse);
      Pulled(path) in pulled.reports && pushed.reports == [Pushed(path)] ==>
        var at := Resolve(cwd, WithoutExtension(path));
        var res := Resolve(pulled.cwd, LoadConfig(nodes, cwd, path, parse).value.target.style.bytes.path);
        && res in pushed.nodes && pushed.nodes[res].File?
        && pushed.nodes[res].data == ReadAt(Opened(nodes, at), res).value
  {
    var pulled := PullFileSpec(nodes, cwd, free, path, parse);
    var pushed := PushFileSpec(pulled.nodes, cwd, pulled.free, path, parse);
    if Pulled(path) in pulled.reports && pushed.reports == [Pushed(path)] {
      PullFileExact(nodes, cwd, free, path, parse);
      var at := Resolve(cwd, WithoutExtension(path));
      var desc := Resolve(cwd, path);
      AssociatedFileOf(path);
      assert at != desc by {
        if !path.absolute {
          assert at.names[|cwd.names|..] == WithoutExtension(path).names;
          assert desc.names[|cwd.names|..] == path.names;
        }
      }
      // the pull changed only the associated file, so the descriptor still loads the same
      assert ReadAt(pulled.nodes, desc) == ReadAt(nodes, desc);
      var config := LoadConfig(nodes, cwd, path, parse).value;
      assert LoadConfig(pulled.nodes, cwd, path, parse) == Ok(config);
      var reader := OpenReadAt(pulled.nodes, at).value;
      var here := Resolve(cwd, Parent(path).value);
      assert pulled.cwd == here;
      var res := config.target.style.bytes;
      PushSucceeded(res, reader.content, pulled.nodes, here, pulled.free);
    }
  }

  /** `pull_file` or `push_file` on a host in state `st`. */
  function Act(st: HostState, path: Path, direction: Direction, parse: Parser): HostState
  {
    var e := match direction
      case Pull => PullFileSpec(st.nodes, st.cwd, st.free, path, parse)
      case Push => PushFileSpec(st.nodes, st.cwd, st.free, path, parse);
    HostState(e.nodes, e.cwd, e.free, st.log + e.reports)
  }

  /** What one entry of an `iterate_yoinkfiles` walk does to the host. The
      directory itself is skipped. A subdirectory is walked when `recursive`
      (and the depth bound allows); then, on the host as that walk left it, a
      `.yoink` file gets the action. Both checks read the host as the earlier
      entries left it. */
  function VisitSpec(st: HostState, dir: Path, e: Entry, recursive: bool, direction: Direction, parse: Parser, depth: nat)
    : HostState
    decreases depth, 0, 0
  {
    match e
    case Unreadable => Noted(st, Problem(EntryUnreadable, Some(dir)))
    case Found(name) =>
      var sub := Join(dir, name);
      if sub == dir then st
      else
        var isDir := KindFrom(st.nodes, st.cwd, sub) == Some(DirKind);
        var walked := if isDir && recursive && depth > 0 then WalkSpec(st, sub, recursive, direction, parse, depth - 1) else st;
        var isFile := KindFrom(walked.nodes, walked.cwd, sub) == Some(FileKind);
        if isFile && IsYoink(sub) then Act(walked, sub, direction, parse) else walked
  }

  /** The entries `rest` visited one after the other from `st`. */
  function VisitsSpec(st: HostState, dir: Path, rest: seq<Entry>, recursive: bool, direction: Direction, parse: Parser, depth: nat)
    : HostState
    decreases depth, 1, |rest|
  {
    if rest == [] then st
    else VisitsSpec(VisitSpec(st, dir, rest[0], recursive, direction, parse, depth), dir, rest[1..], recursive, direction, parse, depth)
  }

  /** What `iterate_yoinkfiles(dir, recursive, f)` does to a host in state `st`,
      with `f` the pull or the push of one descriptor. */
  function WalkSpec(st: HostState, dir: Path, recursive: bool, direction: Direction, parse: Parser, depth: nat)
    : HostState
    decreases depth, 2, 0
  {
    match ListingOf(st.nodes, st.cwd, dir)
    case Denied => Noted(st, Problem(DirUnreadable, Some(dir)))
    case Entries(items) => VisitsSpec(st, dir, items, recursive, direction, parse, depth)
  }

  /** `iterate_yoinkfiles` with the action `pull_file` or `push_file`. The
      recursion is bounded by `depth`: at depth 0 subdirectories are not entered. */
  method IterateYoinkfiles(h: Host, dir: Path, recursive: bool, direction: Direction, parse: Parser, depth: nat)
    requires h.Valid()
    modifies h
    ensures h.Valid()
    ensures h.State() == WalkSpec(old(h.State()), dir, recursive, direction, parse, depth)
    decreases depth
  {
    ghost var start := h.State();
    var listing := ListingOf(h.nodes, h.cwd, dir);
    if listing.Denied? {
      h.Say(Problem(DirUnreadable, Some(dir)));
      return;
    }
    var items := listing.items;
    var i := 0;
    while i < |items|
      invariant 0 <= i <= |items|
      invariant h.Valid()
      invariant VisitsSpec(h.State(), dir, items[i..], recursive, direction, parse, depth)
             == VisitsSpec(start, dir, items, recursive, direction, parse, depth)
      decreases |items| - i
    {
      ghost var before := h.State();
      match items[i] {
      case Unreadable =>
        h.Say(Problem(EntryUnreadable, Some(dir)));
      case Found(name) =>
        var sub := Join(dir, name);
        if sub != dir {
          if h.IsDir(sub) && recursive && depth > 0 {
            IterateYoinkfiles(h, sub, recursive, direction, parse, depth - 1);
          }
          if h.IsFile(sub) && IsYoink(sub) {
            if direction == Pull {
              PullFile(h, sub, parse);
            } else {
              PushFile(h, sub, parse);
            }
          }
        }
      }
      assert h.State() == VisitSpec(before, dir, items[i], recursive, direction, parse, depth);
      assert items[i..][1..] == items[i + 1..];
      i := i + 1;
    }
    assert items[i..] == [];
  }

  /** The host states a walk over `rest` passes through: the one each entry
      starts from, then the final one. */
  function Trace(st: HostState, dir: Path, rest: seq<Entry>, recursive: bool, direction: Direction, parse: Parser, depth: nat)
    : (pre: seq<HostState>)
    ensures |pre| == |rest| + 1 && pre[0] == st
    decreases |rest|
  {
    if rest == [] then [st]
    else [st] + Trace(VisitSpec(st, dir, rest[0], recursive, direction, parse, depth), dir, rest[1..], recursive, direction, parse, depth)
  }

  lemma {:induction false} VisitsByTrace(st: HostState, dir: Path, rest: seq<Entry>, recursive: bool, direction: Direction, parse: Parser, depth: nat)
    ensures var pre := Trace(st, dir, rest, recursive, direction, parse, depth);
      && pre[|rest|] == VisitsSpec(st, dir, rest, recursive, direction, parse, depth)
      && forall k :: 0 <= k < |rest| ==> pre[k + 1] == VisitSpec(pre[k], dir, rest[k], recursive, direction, parse, depth)
    decreases |rest|
  {
    if rest != [] {
      var next := VisitSpec(st, dir, rest[0], recursive, direction, parse, depth);
      var tail := Trace(next, dir, rest[1..], recursive, direction, parse, depth);
      var pre := Trace(st, dir, rest, recursive, direction, parse, depth);
      VisitsByTrace(next, dir, rest[1..], recursive, direction, parse, depth);
      assert pre == [st] + tail;
      forall k | 1 <= k < |rest|
        ensures pre[k + 1] == VisitSpec(pre[k], dir, rest[k], recursive, direction, parse, depth)
      {
        assert pre[k] == tail[k - 1] && pre[k + 1] == tail[k] && rest[k] == rest[1..][k - 1];
      }
    }
  }

  /** `iterate_yoinkfiles` visits every entry of a listable directory in
      order, each on the host the entries before it left; an entry that
      cannot be read, or an action that fails, does not stop the walk. */
  lemma WalkByEntries(st: HostState, dir: Path, recursive: bool, direction: Direction, parse: Parser, depth: nat)
    requires ListingOf(st.nodes, st.cwd, dir).Entries?
    ensures var items := ListingOf(st.nodes, st.cwd, dir).items;
      var pre := Trace(st, dir, items, recursive, direction, parse, depth);
      && |pre| == |items| + 1 && pre[0] == st
      && pre[|items|] == WalkSpec(st, dir, recursive, direction, parse, depth)
      && forall k :: 0 <= k < |items| ==> pre[k + 1] == VisitSpec(pre[k], dir, items[k], recursive, direction, parse, depth)
  {
    VisitsByTrace(st, dir, ListingOf(st.nodes, st.cwd, dir).items, recursive, direction, parse, depth);
  }

  /** A walk that does not recurse, over a directory none of whose entries is
      a `.yoink` path, runs no action: tree, current directory and free space
      stay, and only unreadable entries are reported. */
  lemma QuietWalk(st: HostState, dir: Path, direction: Direction, parse: Parser, depth: nat)
    requires ListingOf(st.nodes, st.cwd, dir).Entries?
    requires var items := ListingOf(st.nodes, st.cwd, dir).items;
      forall k :: 0 <= k < |items| && items[k].Found? ==> !IsYoink(Join(dir, items[k].name))
    ensures var e := WalkSpec(st, dir, false, direction, parse, depth);
      e.nodes == st.nodes && e.cwd == st.cwd && e.free == st.free
      && e.log == st.log + Unreadables(dir, ListingOf(st.nodes, st.cwd, dir).items)
  {
    QuietVisits(st, dir, ListingOf(st.nodes, st.cwd, dir).items, direction, parse, depth);
  }

  /** One "Failed to read child" line per unreadable entry of `rest`. */
  function Unreadables(dir: Path, rest: seq<Entry>): seq<Report>
  {
    if rest == [] then []
    else (if rest[0].Unreadable? then [Problem(EntryUnreadable, Some(dir))] else []) + Unreadables(dir, rest[1..])
  }

  lemma {:induction false} QuietVisits(st: HostState, dir: Path, rest: seq<Entry>, direction: Direction, parse: Parser, depth: nat)
    requires forall k :: 0 <= k < |rest| && rest[k].Found? ==> !IsYoink(Join(dir, rest[k].name))
    ensures var e := VisitsSpec(st, dir, rest, false, direction, parse, depth);
      e.nodes == st.nodes && e.cwd == st.cwd && e.free == st.free && e.log == st.log + Unreadables(dir, rest)
    decreases |rest|
  {
    if rest != [] {
      var next := VisitSpec(st, dir, rest[0], false, direction, parse, depth);
      assert next == if rest[0].Unreadable? then Noted(st, Problem(EntryUnreadable, Some(dir))) else st;
      QuietVisits(next, dir, rest[1..], direction, parse, depth);
    }
  }

  /** Where `dispatch_file_or_dir` sends a path, by what exists there. */
  datatype Route = RunFile | RunDir | Missing | Neither

  /** `dispatch_file_or_dir`: a missing path runs no action, a file only the
      file action, a directory only the directory action, anything else none. */
  function Dispatch(kind: Option<Kind>): (r: Route)
    ensures r == RunFile <==> kind == Some(FileKind)
    ensures r == RunDir <==> kind == Some(DirKind)
    ensures r == Missing <==> kind.None?
    ensures r == Neither <==> kind == Some(OtherKind)
  {
    match kind
    case None => Missing
    case Some(FileKind) => RunFile
    case Some(DirKind) => RunDir
    case Some(OtherKind) => Neither
  }

  /** `pull("")` and `push("")` find nothing there: the empty path does not
      exist and cannot be listed, so the call only prints that. */
  lemma EmptyPathMissing(h: Host)
    ensures Dispatch(h.KindOf(Empty)) == Missing
    ensures ListingOf(h.nodes, h.cwd, Empty) == Denied
  {
  }

  /** `pull(path, recursive)` and `push(path, recursive)`. */
  method Run(h: Host, path: Path, recursive: bool, direction: Direction, parse: Parser, depth: nat)
    requires h.Valid()
    modifies h
    ensures h.Valid()
    ensures Dispatch(old(h.KindOf(path))) == Missing ==> h.State() == Noted(old(h.State()), Problem(NotFound, Some(path)))
    ensures Dispatch(old(h.KindOf(path))) == Neither ==> h.State() == Noted(old(h.State()), Problem(NotFileOrDir, Some(path)))
    ensures Dispatch(old(h.KindOf(path))) == RunFile ==> h.State() == Act(old(h.State()), path, direction, parse)
    ensures Dispatch(old(h.KindOf(path))) == RunDir ==> h.State() == WalkSpec(old(h.State()), path, recursive, direction, parse, depth)
  {
    match Dispatch(h.KindOf(path))
    case Missing => h.Say(Problem(NotFound, Some(path)));
    case Neither => h.Say(Problem(NotFileOrDir, Some(path)));
    case RunFile =>
      if direction == Pull {
        PullFile(h, path, parse);
      } else {
        PushFile(h, path, parse);
      }
    case RunDir =>
      IterateYoinkfiles(h, path, recursive, direction, parse, depth);
  }
}
