/** The `bytes` style of the older pull/push variant (src/style/bytes.rs): the
    resource is the file at a configured path, resolved against the current
    directory. `Pull` copies it into a writer and reports how many bytes it
    wrote; `Push` reads a source to the end, creates the resource's parent
    directories, overwrites the resource and cuts it to the new length. */
module StyleBytes {
  import opened Common
  import opened Paths
  import opened Fs

  datatype Bytes = Bytes(path: Path)

  /** What `Bytes::pull` does, given what reading the resource gives and the
      state of the writer: the length it returns, the writer's new state and
      the lines it prints. */
  function PullSpec(cfg: Bytes, read: Result<seq<byte>, Error>, s: SinkState): (r: (Option<nat>, SinkState, seq<Report>))
    requires SinkValid(s)
    ensures SinkValid(r.1)
    // an unreadable resource: nothing is written
    ensures read.Err? ==> r.0 == None && r.1 == s && r.2 == [Problem(ResourceUnreadable, Some(cfg.path))]
    // a length is returned exactly when every byte of the resource went to the writer, in order
    ensures r.0.Some? <==> read.Ok? && Fits(s.room, |read.value|)
    ensures r.0.Some? ==>
      && r.0.value == |read.value|
      && r.1.pos == s.pos + r.0.value
      && r.1.data[s.pos..r.1.pos] == read.value
      && r.2 == []
    ensures read.Ok? && r.0.None? ==> r.2 == [Problem(SinkWriteFailed, None)]
    // whatever the outcome, the writer took what fit of the resource
    ensures read.Ok? ==> r.1 == AfterWriteAll(s, read.value)
  {
    match read
    case Err(_) => (None, s, [Problem(ResourceUnreadable, Some(cfg.path))])
    case Ok(bytes) =>
      var t := AfterWriteAll(s, bytes);
      if Fits(s.room, |bytes|) then
        assert bytes[..|bytes|] == bytes;
        assert t.data[s.pos..t.pos] == bytes;
        (Some(|bytes|), t, [])
      else (None, t, [Problem(SinkWriteFailed, None)])
  }

  /** A pull keeps a file handle within its budget. */
  lemma PullBudgeted(cfg: Bytes, read: Result<seq<byte>, Error>, s: SinkState, total: Capacity)
    requires SinkValid(s) && Budgeted(s, total)
    ensures Budgeted(PullSpec(cfg, read, s).1, total)
  {
    if read.Ok? {
      BudgetedWrite(s, total, read.value);
    }
  }

  /** `Bytes::pull(target)`. */
  method Pull(cfg: Bytes, h: Host, target: Sink) returns (n: Option<nat>)
    requires target.Valid()
    modifies target, h`log
    ensures target.Valid()
    ensures var spec := PullSpec(cfg, h.Read(cfg.path), old(target.State()));
      n == spec.0 && target.State() == spec.1 && h.log == old(h.log) + spec.2
  {
    var read := h.Read(cfg.path);
    match read
    case Err(_) =>
      h.Say(Problem(ResourceUnreadable, Some(cfg.path)));
      n := None;
    case Ok(bytes) =>
      var written := target.WriteAll(bytes);
      if written.Fail? {
        h.Say(Problem(SinkWriteFailed, None));
        return None;
      }
      n := Some(|bytes|);
  }

  /** What `Bytes::push` does, given what reading the source gives and the
      host's tree, current directory and free space: the new tree, the new free
      space and the lines it prints. */
  function PushSpec(cfg: Bytes, content: Result<seq<byte>, Error>, nodes: map<Path, Node>, cwd: Path, free: Capacity)
    : (r: (map<Path, Node>, Capacity, seq<Report>))
  {
    match content
    case Err(_) => (nodes, free, [Problem(SourceUnreadable, Some(cfg.path))])
    case Ok(buffer) =>
      match Parent(cfg.path)
      case None => (nodes, free, [Problem(ResourceParentMissing, Some(cfg.path))])
      case Some(parent) =>
        if !DirsCreatable(nodes, cwd, parent) then (nodes, free, [Problem(ParentsNotCreated, Some(cfg.path))])
        else
          var made := MadeDirs(nodes, cwd, parent);
          var at := Resolve(cwd, cfg.path);
          if !CanOpenWrite(made, at) then (made, free, [Problem(ResourceNotOpened, Some(cfg.path))])
          else
            var tree := Opened(made, at);
            var mode := tree[at].mode;
            var size := |tree[at].data|;
            var room := RoomFor(free, size);
            var s := AfterWriteAll(SinkState(tree[at].data, 0, room), buffer);
            BudgetedWrite(SinkState(tree[at].data, 0, room), room, buffer);
            if !Fits(room, |buffer|) then
              (tree[at := File(s.data, mode)], Settle(free, size, |s.data|), [Problem(ResourceWriteFailed, Some(cfg.path))])
            else
              // the cursor sits at the end of what was written, so this cuts
              var t := SetLenState(s, |buffer|);
              (tree[at := File(t.data, mode)], Settle(free, size, |buffer|), [])
  }

  /** A push that prints nothing succeeded: the resource is a file holding
      exactly the source's bytes, whatever it held before, and its parent
      directories exist. */
  lemma PushSucceeded(cfg: Bytes, content: Result<seq<byte>, Error>, nodes: map<Path, Node>, cwd: Path, free: Capacity)
    requires cwd.absolute
    ensures var r := PushSpec(cfg, content, nodes, cwd, free);
      r.2 == [] ==>
        && content.Ok?
        && Parent(cfg.path).Some?
        && Resolve(cwd, cfg.path) in r.0
        && r.0[Resolve(cwd, cfg.path)].File?
        && r.0[Resolve(cwd, cfg.path)].data == content.value
        && (Parent(cfg.path).value != Empty ==>
              forall q :: q in Prefixes(Resolve(cwd, Parent(cfg.path).value)) ==> q in r.0 && r.0[q].Dir?)
  {
    var r := PushSpec(cfg, content, nodes, cwd, free);
    if r.2 == [] {
      var buffer := content.value;
      var parent := Parent(cfg.path).value;
      var made := MadeDirs(nodes, cwd, parent);
      var at := Resolve(cwd, cfg.path);
      var tree := Opened(made, at);
      OverwriteThenTruncate(tree[at].data, RoomFor(free, |tree[at].data|), buffer);
      if parent != Empty {
        var top := Resolve(cwd, parent);
        assert |top.names| < |at.names| by {
          assert |at.names| == |cwd.names| + |cfg.path.names| || cfg.path.absolute;
        }
        forall q | q in Prefixes(top)
          ensures q in r.0 && r.0[q].Dir?
        {
          assert q in made && made[q].Dir?;
          assert q != at;
        }
      }
    }
  }

  /** Each failing step stops every later one: an unreadable source, a missing
      parent or parents that cannot be created leave the tree and the free
      space as they were; a resource that cannot be opened leaves only the
      created directories. */
  lemma PushStopsEarly(cfg: Bytes, content: Result<seq<byte>, Error>, nodes: map<Path, Node>, cwd: Path, free: Capacity)
    ensures var r := PushSpec(cfg, content, nodes, cwd, free);
      && ((content.Err? || Parent(cfg.path).None? || !DirsCreatable(nodes, cwd, Parent(cfg.path).value))
          ==> r.0 == nodes && r.1 == free && |r.2| == 1)
      && ((content.Ok? && Parent(cfg.path).Some? && DirsCreatable(nodes, cwd, Parent(cfg.path).value)
           && !CanOpenWrite(MadeDirs(nodes, cwd, Parent(cfg.path).value), Resolve(cwd, cfg.path)))
          ==> r.0 == MadeDirs(nodes, cwd, Parent(cfg.path).value) && r.1 == free
              && r.2 == [Problem(ResourceNotOpened, Some(cfg.path))])
  {
  }

  /** `Bytes::push(source)`. */
  method Push(cfg: Bytes, h: Host, source: Reader)
    requires h.Valid()
    modifies h`nodes, h`free, h`log
    ensures h.Valid()
    ensures var spec := PushSpec(cfg, source.content, old(h.nodes), h.cwd, old(h.free));
      h.nodes == spec.0 && h.free == spec.1 && h.log == old(h.log) + spec.2
  {
    if source.content.Err? {
      h.Say(Problem(SourceUnreadable, Some(cfg.path)));
      return;
    }
    var buffer := source.content.value;
    if Parent(cfg.path).None? {
      h.Say(Problem(ResourceParentMissing, Some(cfg.path)));
      return;
    }
    var parent := Parent(cfg.path).value;
    var made := h.CreateDirAll(parent);
    if made.Fail? {
      h.Say(Problem(ParentsNotCreated, Some(cfg.path)));
      return;
    }
    var at := h.Abs(cfg.path);
    var handle := h.OpenWrite(cfg.path);
    if handle.Err? {
      h.Say(Problem(ResourceNotOpened, Some(cfg.path)));
      return;
    }
    var target := handle.value;
    ghost var start := target.State();
    var written := target.WriteAll(buffer);
    BudgetedWrite(start, start.room, buffer);
    if written.Fail? {
      h.Close(at, target);
      h.Say(Problem(ResourceWriteFailed, Some(cfg.path)));
      return;
    }
    target.SetLen(|buffer|);
    h.Close(at, target);
  }
}
