/** The `dconf` runner of the newer variant (src/runner/dconf.rs): open a gvdb
    settings database, walk its hash table's keys in order, drop every key that
    starts with one of the excluded prefixes, skip every key whose value cannot
    be fetched, and write one `key = value` line per remaining key. Keys and
    values are UTF-8 text, carried here as bytes. */
module Dconf {
  import opened Common
  import opened Paths
  import opened Fs

  type Text = seq<byte>

  /** The hash table as the walk sees it: each key in table order, as its
      conversion to text (which can fail), with the result of looking up its
      value, already rendered as text (`None` when the lookup fails). */
  type Table = seq<(Result<Text, Error>, Option<Text>)>

  /** An opened database: `hash_table()` either gives the table or fails. */
  datatype Store = Store(table: Option<Table>)

  /** `gvdb::read::File::from_file` past the read itself: decoding the file's bytes. */
  type Decoder = seq<byte> -> Option<Store>

  /** `exclude` defaults to the empty list when the descriptor omits it. */
  datatype DconfConfig = DconfConfig(path: Path, exclude: seq<Text>)

  /** `self.exclude.iter().any(|str| key.starts_with(str))`. */
  predicate Excluded(exclude: seq<Text>, key: Text)
  {
    exists i :: 0 <= i < |exclude| && exclude[i] <= key
  }

  /** The line `writeln!(target, "{key} = {value}")` writes. */
  function Line(key: Text, value: Text): Text
  {
    key + [32, 61, 32] + value + [10]
  }

  /** The (key, value) pairs the walk writes for a table whose keys all
      convert, in table order. */
  function Pairs(exclude: seq<Text>, t: Table): seq<(Text, Text)>
  {
    if t == [] then []
    else
      var last := t[|t| - 1];
      Pairs(exclude, t[..|t| - 1])
      + (if last.0.Ok? && !Excluded(exclude, last.0.value) && last.1.Some?
         then [(last.0.value, last.1.value)] else [])
  }

  /** The text of the lines for `ps`, one after the other. */
  function Render(ps: seq<(Text, Text)>): Text
  {
    if ps == [] then []
    else Render(ps[..|ps| - 1]) + Line(ps[|ps| - 1].0, ps[|ps| - 1].1)
  }

  /** The index of the first key that does not convert, or `|t|`. */
  function FirstBad(t: Table): (n: nat)
    ensures n <= |t|
    ensures forall j :: 0 <= j < n ==> t[j].0.Ok?
    ensures n < |t| ==> t[n].0.Err?
  {
    if t == [] then 0
    else if t[0].0.Err? then 0
    else 1 + FirstBad(t[1..])
  }

  /** What `DconfConfig::yoink` does, given what reading the database file
      gives, the decoder and the target's state. */
  function Spec(cfg: DconfConfig, read: Result<seq<byte>, Error>, decode: Decoder, s: SinkState)
    : (r: (Outcome<Error>, SinkState))
    requires SinkValid(s)
    ensures SinkValid(r.1)
    // the database or its table cannot be opened: an error naming the path, before any write
    ensures (read.Err? || decode(read.value).None? || decode(read.value).value.table.None?) ==>
      r.1 == s && r.0.Fail? && r.0.error.AtPath? && r.0.error.path == cfg.path
    // otherwise the lines for the keys before the first bad key go out, in order
    ensures read.Ok? && decode(read.value).Some? && decode(read.value).value.table.Some? ==>
      var t := decode(read.value).value.table.value;
      var out := Render(Pairs(cfg.exclude, t[..FirstBad(t)]));
      && r.1 == AfterWriteAll(s, out)
      && (Fits(s.room, |out|) ==> r.1.data[s.pos..r.1.pos] == out)
      // the call succeeds exactly when every key converts and every line is written
      && (r.0.Pass? <==> FirstBad(t) == |t| && Fits(s.room, |out|))
      // a bad key is reported with the path, after the earlier lines were written
      && (FirstBad(t) < |t| && Fits(s.room, |out|) ==> r.0 == Fail(AtPath(cfg.path, t[FirstBad(t)].0.error)))
      && (!Fits(s.room, |out|) ==> r.0 == Fail(IoFailure))
  {
    match read
    case Err(e) => (Fail(AtPath(cfg.path, e)), s)
    case Ok(bytes) =>
      match decode(bytes)
      case None => (Fail(AtPath(cfg.path, StoreFormat)), s)
      case Some(store) =>
        match store.table
        case None => (Fail(AtPath(cfg.path, StoreFormat)), s)
        case Some(t) =>
          var out := Render(Pairs(cfg.exclude, t[..FirstBad(t)]));
          var after := AfterWriteAll(s, out);
          assert Fits(s.room, |out|) ==> after.data[s.pos..after.pos] == out by {
            assert out[..|out|] == out;
          }
          (TableOutcome(cfg, t, s.room), after)
  }

  /** The result of the key walk over a table: a failed write first, then the
      first key that does not convert. */
  function TableOutcome(cfg: DconfConfig, t: Table, room: Capacity): Outcome<Error>
  {
    if !Fits(room, |Render(Pairs(cfg.exclude, t[..FirstBad(t)]))|) then Fail(IoFailure)
    else if FirstBad(t) < |t| then Fail(AtPath(cfg.path, t[FirstBad(t)].0.error))
    else Pass
  }

  lemma PairsStep(exclude: seq<Text>, t: Table, i: nat)
    requires i < |t|
    ensures Pairs(exclude, t[..i + 1]) ==
      Pairs(exclude, t[..i])
      + (if t[i].0.Ok? && !Excluded(exclude, t[i].0.value) && t[i].1.Some?
         then [(t[i].0.value, t[i].1.value)] else [])
  {
    assert t[..i + 1][..i] == t[..i];
  }

  /** `DconfConfig::yoink(target)`. */
  method Yoink(cfg: DconfConfig, h: Host, decode: Decoder, target: Sink) returns (r: Outcome<Error>)
    requires target.Valid()
    modifies target
    ensures target.Valid()
    ensures (r, target.State()) == Spec(cfg, h.Read(cfg.path), decode, old(target.State()))
  {
    var read := h.Read(cfg.path);
    if read.Err? {
      return Fail(AtPath(cfg.path, read.error));
    }
    var file := decode(read.value);
    if file.None? {
      return Fail(AtPath(cfg.path, StoreFormat));
    }
    var table := file.value.table;
    if table.None? {
      return Fail(AtPath(cfg.path, StoreFormat));
    }
    r := WriteLines(cfg, table.value, target);
  }

  /** The `for key in table.keys()` loop. */
  method WriteLines(cfg: DconfConfig, t: Table, target: Sink) returns (r: Outcome<Error>)
    requires target.Valid()
    modifies target
    ensures target.Valid()
    ensures r == TableOutcome(cfg, t, old(target.room))
    ensures target.State() == AfterWriteAll(old(target.State()), Render(Pairs(cfg.exclude, t[..FirstBad(t)])))
  {
    ghost var s0 := target.State();
    var i := 0;
    while i < |t|
      invariant 0 <= i <= |t|
      invariant target.Valid()
      invariant forall j :: 0 <= j < i ==> t[j].0.Ok?
      invariant Fits(s0.room, |Render(Pairs(cfg.exclude, t[..i]))|)
      invariant target.State() == AfterWriteAll(s0, Render(Pairs(cfg.exclude, t[..i])))
    {
      var entry := t[i];
      if entry.0.Err? {
        FirstBadAt(t, i);
        return Fail(AtPath(cfg.path, entry.0.error));
      }
      var key := entry.0.value;
      PairsStep(cfg.exclude, t, i);
      if Excluded(cfg.exclude, key) || entry.1.None? {
        assert Pairs(cfg.exclude, t[..i + 1]) == Pairs(cfg.exclude, t[..i]);
        i := i + 1;
        continue;
      }
      ghost var before := Render(Pairs(cfg.exclude, t[..i]));
      var line := Line(key, entry.1.value);
      var written := target.WriteAll(line);
      RenderStep(Pairs(cfg.exclude, t[..i]), (key, entry.1.value));
      AfterWriteAllAppend(s0, before, line);
      FitsSplit(s0.room, |before|, |line|);
      if written.Fail? {
        // nothing more is written once a write runs short
        ghost var whole := Render(Pairs(cfg.exclude, t[..FirstBad(t)]));
        assert i < FirstBad(t);
        PairsPrefix(cfg.exclude, t, i + 1, FirstBad(t));
        RenderPrefix(Pairs(cfg.exclude, t[..i + 1]), Pairs(cfg.exclude, t[..FirstBad(t)]));
        StopsAtPrefix(s0, before + line, whole);
        return Fail(IoFailure);
      }
      assert Render(Pairs(cfg.exclude, t[..i + 1])) == before + line;
      assert Fits(s0.room, |before + line|);
      i := i + 1;
    }
    assert t[..i] == t;
    FirstBadAt(t, |t|);
    r := Pass;
  }

  lemma FirstBadAt(t: Table, i: nat)
    requires i <= |t|
    requires forall j :: 0 <= j < i ==> t[j].0.Ok?
    requires i < |t| ==> t[i].0.Err?
    ensures FirstBad(t) == i
  {
  }

  lemma RenderStep(ps: seq<(Text, Text)>, p: (Text, Text))
    ensures Render(ps + [p]) == Render(ps) + Line(p.0, p.1)
  {
    assert (ps + [p])[..|ps|] == ps;
  }

  /** Once `a` fits, `a` then `b` fits exactly when `b` fits in what is left. */
  lemma FitsSplit(c: Capacity, a: nat, b: nat)
    requires Fits(c, a)
    ensures Fits(c, a + b) <==> Fits(Spend(c, a), b)
  {
  }

  /** The pairs of a longer table start with the pairs of its prefix. */
  lemma {:induction false} PairsPrefix(exclude: seq<Text>, t: Table, i: nat, j: nat)
    requires i <= j <= |t|
    ensures Pairs(exclude, t[..i]) <= Pairs(exclude, t[..j])
    decreases j - i
  {
    if i < j {
      PairsPrefix(exclude, t, i, j - 1);
      PairsStep(exclude, t, j - 1);
    }
  }

  /** The text of a longer list of pairs starts with the text of its prefix. */
  lemma {:induction false} RenderPrefix(ps: seq<(Text, Text)>, qs: seq<(Text, Text)>)
    requires ps <= qs
    ensures Render(ps) <= Render(qs)
    decreases |qs|
  {
    if |ps| < |qs| {
      var q0 := qs[..|qs| - 1];
      assert ps <= q0;
      RenderPrefix(ps, q0);
    } else {
      assert ps == qs;
    }
  }

  /** A write of `a` that runs short leaves the writer where a write of any
      longer `w` would, and `w` does not fit either. */
  lemma StopsAtPrefix(s: SinkState, a: Text, w: Text)
    requires SinkValid(s) && a <= w && !Fits(s.room, |a|)
    ensures AfterWriteAll(s, a) == AfterWriteAll(s, w)
    ensures !Fits(s.room, |w|)
  {
    assert w == a + w[|a|..];
    AfterWriteAllStops(s, a, w[|a|..]);
  }

  // ---------------------------------------------------------------------------
  // What the filter keeps

  /** Pairs distribute over a table split in two. */
  lemma {:induction false} PairsAppend(exclude: seq<Text>, a: Table, b: Table)
    ensures Pairs(exclude, a + b) == Pairs(exclude, a) + Pairs(exclude, b)
    decreases |b|
  {
    if b == [] {
      assert a + b == a;
    } else {
      var b0 := b[..|b| - 1];
      assert (a + b)[..|a + b| - 1] == a + b0;
      PairsAppend(exclude, a, b0);
    }
  }

  /** A pair is written exactly when some entry has that key (converted),
      that value (fetched), and the key starts with no excluded prefix. */
  lemma {:induction false} PairsIff(exclude: seq<Text>, t: Table, key: Text, value: Text)
    ensures (key, value) in Pairs(exclude, t) <==>
      (!Excluded(exclude, key) && exists j :: 0 <= j < |t| && t[j] == (Ok(key), Some(value)))
    decreases |t|
  {
    if t != [] {
      var t0 := t[..|t| - 1];
      PairsIff(exclude, t0, key, value);
      if exists j :: 0 <= j < |t| && t[j] == (Ok(key), Some(value)) {
        var j :| 0 <= j < |t| && t[j] == (Ok(key), Some(value));
        if j < |t| - 1 {
          assert t0[j] == t[j];
        }
      }
      if exists j :: 0 <= j < |t0| && t0[j] == (Ok(key), Some(value)) {
        var j :| 0 <= j < |t0| && t0[j] == (Ok(key), Some(value));
        assert t[j] == t0[j];
      }
    }
  }

  /** No written key starts with an excluded prefix. */
  lemma NoExcludedKeyWritten(exclude: seq<Text>, t: Table)
    ensures forall p :: p in Pairs(exclude, t) ==> !Excluded(exclude, p.0)
  {
    forall p | p in Pairs(exclude, t)
      ensures !Excluded(exclude, p.0)
    {
      PairsIff(exclude, t, p.0, p.1);
    }
  }

  /** With no excluded prefixes every key whose value can be fetched is written. */
  lemma NoExcludesKeepsEvery(t: Table)
    ensures forall j :: 0 <= j < |t| && t[j].0.Ok? && t[j].1.Some? ==>
      (t[j].0.value, t[j].1.value) in Pairs([], t)
  {
    forall j | 0 <= j < |t| && t[j].0.Ok? && t[j].1.Some?
      ensures (t[j].0.value, t[j].1.value) in Pairs([], t)
    {
      PairsIff([], t, t[j].0.value, t[j].1.value);
    }
  }

  /** An empty prefix excludes every key. */
  lemma {:induction false} EmptyPrefixDropsAll(exclude: seq<Text>, t: Table)
    requires [] in exclude
    ensures Pairs(exclude, t) == []
    decreases |t|
  {
    if t != [] {
      EmptyPrefixDropsAll(exclude, t[..|t| - 1]);
      var i :| 0 <= i < |exclude| && exclude[i] == [];
      if t[|t| - 1].0.Ok? {
        assert exclude[i] <= t[|t| - 1].0.value;
      }
    }
  }

  /** The pairs of `ps` whose key no prefix of `more` starts. */
  function Without(more: seq<Text>, ps: seq<(Text, Text)>): (r: seq<(Text, Text)>)
  {
    if ps == [] then []
    else
      Without(more, ps[..|ps| - 1])
      + (if Excluded(more, ps[|ps| - 1].0) then [] else [ps[|ps| - 1]])
  }

  lemma ExcludedConcat(a: seq<Text>, b: seq<Text>, key: Text)
    ensures Excluded(a + b, key) <==> Excluded(a, key) || Excluded(b, key)
  {
    if Excluded(a + b, key) {
      var i :| 0 <= i < |a + b| && (a + b)[i] <= key;
      if i >= |a| {
        assert b[i - |a|] == (a + b)[i];
      }
    }
    if Excluded(a, key) {
      var i :| 0 <= i < |a| && a[i] <= key;
      assert (a + b)[i] == a[i];
    }
    if Excluded(b, key) {
      var i :| 0 <= i < |b| && b[i] <= key;
      assert (a + b)[|a| + i] == b[i];
    }
  }

  /** Adding excluded prefixes only removes lines: the output is the old output
      without the pairs whose key starts with one of the added prefixes. */
  lemma {:induction false} MoreExcludesFilter(exclude: seq<Text>, more: seq<Text>, t: Table)
    ensures Pairs(exclude + more, t) == Without(more, Pairs(exclude, t))
    decreases |t|
  {
    if t != [] {
      var t0 := t[..|t| - 1];
      var last := t[|t| - 1];
      MoreExcludesFilter(exclude, more, t0);
      if last.0.Ok? {
        ExcludedConcat(exclude, more, last.0.value);
      }
      var ps0 := Pairs(exclude, t0);
      if last.0.Ok? && !Excluded(exclude, last.0.value) && last.1.Some? {
        var p := (last.0.value, last.1.value);
        assert Pairs(exclude, t) == ps0 + [p];
        assert (ps0 + [p])[..|ps0|] == ps0;
      } else {
        assert Pairs(exclude, t) == ps0;
      }
    }
  }

  /** A key whose value cannot be fetched is skipped: removing it from the
      table changes nothing that is written. */
  lemma LookupFailureSkipped(exclude: seq<Text>, t: Table, j: nat)
    requires j < |t| && t[j].1.None?
    ensures Pairs(exclude, t[..j] + t[j + 1..]) == Pairs(exclude, t)
  {
    assert t == t[..j] + ([t[j]] + t[j + 1..]);
    PairsAppend(exclude, t[..j], [t[j]] + t[j + 1..]);
    PairsAppend(exclude, [t[j]], t[j + 1..]);
    PairsAppend(exclude, t[..j], t[j + 1..]);
    assert Pairs(exclude, [t[j]]) == [] by {
      assert [t[j]][..0] == [];
    }
  }

  /** The text of two lists of pairs is the text of the first then the second. */
  lemma {:induction false} RenderAppend(a: seq<(Text, Text)>, b: seq<(Text, Text)>)
    ensures Render(a + b) == Render(a) + Render(b)
    decreases |b|
  {
    if b == [] {
      assert a + b == a;
    } else {
      var b0 := b[..|b| - 1];
      assert (a + b)[..|a + b| - 1] == a + b0;
      RenderAppend(a, b0);
    }
  }
}
