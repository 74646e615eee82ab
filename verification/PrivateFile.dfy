/**
 `write_private_file`: a temporary sibling, then a rename. First the call itself
 on a file system that may fail at any operation, then any number of writers
 interleaved operation by operation and killed at any point.
 */
module PrivateFile {
  import opened Prelude

  /** The target of the write, or a temporary sibling with a random suffix. */
  datatype Name = Target | Temp(suffix: Bytes)

  function Look(files: map<Name, Bytes>, n: Name): Option<Bytes> {
    if n in files then Some(files[n]) else None
  }

  /** Which operation of a call fails, if any; a failing write leaves `partial` octets behind. */
  datatype Fault = NoFault | OpenFails | WriteFails(partial: nat) | RenameFails

  class FileSystem {
    var files: map<Name, Bytes>

    constructor (files: map<Name, Bytes>)
      ensures this.files == files
    {
      this.files := files;
    }

    /** `create_new`: fails when the name exists. */
    method CreateNew(n: Name, fault: Fault) returns (ok: bool)
      modifies this
      ensures ok == (n !in old(files) && fault != OpenFails)
      ensures files == if ok then old(files)[n := []] else old(files)
    {
      ok := n !in files && fault != OpenFails;
      if ok {
        files := files[n := []];
      }
    }

    method WriteAll(n: Name, data: Bytes, fault: Fault) returns (ok: bool)
      requires n in files
      modifies this
      ensures ok == !fault.WriteFails?
      ensures exists k :: 0 <= k <= |data| && files == old(files)[n := data[..k]] && (ok ==> k == |data|)
    {
      ok := !fault.WriteFails?;
      var k := if fault.WriteFails? && fault.partial < |data| then fault.partial else |data|;
      files := files[n := data[..k]];
    }

    /** A removal whose result is ignored. */
    method TryRemove(n: Name, works: bool)
      modifies this
      ensures files == if works then old(files) - {n} else old(files)
    {
      if works {
        files := files - {n};
      }
    }

    method Rename(from: Name, to: Name, fault: Fault) returns (ok: bool)
      requires from in files && from != to
      modifies this
      ensures ok == !fault.RenameFails?
      ensures files == if ok then (old(files) - {from})[to := old(files)[from]] else old(files)
    {
      ok := !fault.RenameFails?;
      if ok {
        files := (files - {from})[to := files[from]];
      }
    }

    /**
     On success the target holds the data and nothing else has changed; on failure
     nothing but the temporary file can have changed, and that is gone too unless
     the clean-up, whose own failure is ignored, does not work.
     */
    method WritePrivateFile(data: Bytes, suffix: Bytes, fault: Fault, cleans: bool) returns (ok: bool)
      modifies this
      ensures ok == (Temp(suffix) !in old(files) && fault.NoFault?)
      ensures ok ==> files == (old(files) - {Temp(suffix)})[Target := data]
      ensures !ok ==> files - {Temp(suffix)} == old(files) - {Temp(suffix)}
      ensures !ok && cleans ==> Temp(suffix) !in files
    {
      var tmp := Temp(suffix);
      ghost var before := files;
      var written := CreateNew(tmp, fault);
      if written {
        written := WriteAll(tmp, data, fault);
        ghost var k :| 0 <= k <= |data| && files == before[tmp := []][tmp := data[..k]] && (written ==> k == |data|);
        assert files - {tmp} == before - {tmp};
      }
      if !written {
        TryRemove(tmp, cleans);
        return false;
      }
      assert files[tmp] == data;
      ok := Rename(tmp, Target, fault);
      if !ok {
        TryRemove(tmp, cleans);
      }
    }
  }

  // ---- interleaved writers ----

  /** A call in progress, known by its temporary suffix. */
  datatype Stage = Ready | Writing(written: nat) | Returned(ok: bool)

  datatype Writer = Writer(data: Bytes, stage: Stage)

  /** `started` and `installed` record the history: who began with which data, and whose rename landed. */
  datatype Disk = Disk(
    files: map<Name, Bytes>,
    writers: map<Bytes, Writer>,
    started: map<Bytes, Bytes>,
    installed: seq<Bytes>)

  datatype Event =
    | Start(suffix: Bytes, data: Bytes)
    | Open(suffix: Bytes, cleans: bool)
    | Write(suffix: Bytes, count: nat)
    | Rename(suffix: Bytes)
    | Fail(suffix: Bytes, cleans: bool)
    | Crash(suffix: Bytes)

  /** The call returns an error, having tried to remove its temporary file. */
  function GiveUp(d: Disk, s: Bytes, w: Writer, cleans: bool): Disk {
    d.(files := if cleans then d.files - {Temp(s)} else d.files, writers := d.writers[s := w.(stage := Returned(false))])
  }

  /** One operation of a writer's call. */
  function Step(d: Disk, e: Event): Disk
    requires e.suffix in d.writers && !e.Start?
  {
    var s, w, tmp := e.suffix, d.writers[e.suffix], Temp(e.suffix);
    match e
    case Open(_, cleans) =>
      if !w.stage.Ready? then d
      else if tmp in d.files then GiveUp(d, s, w, cleans)
      else d.(files := d.files[tmp := []], writers := d.writers[s := w.(stage := Writing(0))])
    case Write(_, count) =>
      if !w.stage.Writing? then d else
        var k := if w.stage.written + count <= |w.data| then w.stage.written + count else |w.data|;
        d.(files := d.files[tmp := w.data[..k]], writers := d.writers[s := w.(stage := Writing(k))])
    case Rename(_) =>
      if !(w.stage.Writing? && w.stage.written == |w.data| && tmp in d.files) then d else
        d.(files := (d.files - {tmp})[Target := d.files[tmp]],
           writers := d.writers[s := w.(stage := Returned(true))],
           installed := d.installed + [s])
    case Fail(_, cleans) => if w.stage.Returned? then d else GiveUp(d, s, w, cleans)
    case Crash(_) => d.(writers := d.writers - {s})
  }

  function Next(d: Disk, e: Event): Disk {
    if e.Start? then
      // Random suffixes: a name is never drawn twice.
      if e.suffix in d.started then d else
        d.(writers := d.writers[e.suffix := Writer(e.data, Ready)], started := d.started[e.suffix := e.data])
    else if e.suffix !in d.writers then d
    else Step(d, e)
  }

  function Run(d: Disk, events: seq<Event>): Disk
    decreases |events|
  {
    if events == [] then d else Next(Run(d, events[..|events| - 1]), events[|events| - 1])
  }

  function Begin(files: map<Name, Bytes>): Disk {
    Disk(files, map[], map[], [])
  }

  ghost predicate WriterOk(d: Disk, s: Bytes, w: Writer) {
    && s in d.started && d.started[s] == w.data
    && (w.stage.Writing? ==>
          w.stage.written <= |w.data| && Look(d.files, Temp(s)) == Some(w.data[..w.stage.written]))
    && (s in d.installed <==> w.stage == Returned(true))
  }

  ghost predicate WritersOk(d: Disk) {
    && (forall s :: s in d.writers ==> WriterOk(d, s, d.writers[s]))
    && (forall s :: s in d.installed ==> s in d.started)
  }

  /** The target is the data of the last writer whose rename landed. */
  ghost predicate TargetOk(d: Disk, original: Option<Bytes>) {
    Look(d.files, Target) ==
    if d.installed == [] then original
    else var s := d.installed[|d.installed| - 1];
         if s in d.started then Some(d.started[s]) else None
  }

  ghost predicate Inv(d: Disk, original: Option<Bytes>) {
    WritersOk(d) && TargetOk(d, original)
  }

  lemma StartKeeps(d: Disk, e: Event, original: Option<Bytes>)
    requires Inv(d, original) && e.Start?
    ensures Inv(Next(d, e), original)
  {
    if d.installed != [] { assert d.installed[|d.installed| - 1] in d.installed; }
    forall s | s in Next(d, e).writers ensures WriterOk(Next(d, e), s, Next(d, e).writers[s]) {
      if s in d.writers { assert WriterOk(d, s, d.writers[s]); }
    }
  }

  /** What an operation does to other writers' temporary files and to the history. */
  lemma StepFrame(d: Disk, e: Event, s: Bytes)
    requires e.suffix in d.writers && !e.Start? && s != e.suffix
    ensures var d' := Step(d, e);
            && Look(d'.files, Temp(s)) == Look(d.files, Temp(s)) && d'.started == d.started
            && (s in d'.writers <==> s in d.writers) && (s in d.writers ==> d'.writers[s] == d.writers[s])
            && (s in d'.installed <==> s in d.installed)
  {
  }

  lemma StepOwn(d: Disk, e: Event)
    requires WritersOk(d) && e.suffix in d.writers && !e.Start?
    ensures var d' := Step(d, e);
            e.suffix in d'.writers ==> WriterOk(d', e.suffix, d'.writers[e.suffix])
  {
    var w := d.writers[e.suffix];
    assert WriterOk(d, e.suffix, w);
  }

  lemma StepKeepsWriters(d: Disk, e: Event)
    requires WritersOk(d) && e.suffix in d.writers && !e.Start?
    ensures WritersOk(Step(d, e))
  {
    var d' := Step(d, e);
    forall s | s in d'.writers ensures WriterOk(d', s, d'.writers[s]) {
      if s == e.suffix {
        StepOwn(d, e);
      } else {
        StepFrame(d, e, s);
        assert WriterOk(d, s, d.writers[s]);
      }
    }
    assert WriterOk(d, e.suffix, d.writers[e.suffix]);
  }

  lemma StepKeepsTarget(d: Disk, e: Event, original: Option<Bytes>)
    requires Inv(d, original) && e.suffix in d.writers && !e.Start?
    ensures TargetOk(Step(d, e), original)
  {
    var w := d.writers[e.suffix];
    assert WriterOk(d, e.suffix, w);
    assert w.data[..|w.data|] == w.data;
  }

  lemma NextKeeps(d: Disk, e: Event, original: Option<Bytes>)
    requires Inv(d, original)
    ensures Inv(Next(d, e), original)
  {
    if e.Start? {
      StartKeeps(d, e, original);
    } else if e.suffix in d.writers {
      StepKeepsWriters(d, e);
      StepKeepsTarget(d, e, original);
    }
  }

  lemma {:induction false} RunInv(files: map<Name, Bytes>, events: seq<Event>)
    ensures Inv(Run(Begin(files), events), Look(files, Target))
    decreases |events|
  {
    if events != [] {
      RunInv(files, events[..|events| - 1]);
      NextKeeps(Run(Begin(files), events[..|events| - 1]), events[|events| - 1], Look(files, Target));
    }
  }

  /**
   At every point of every interleaving, crashes included, the target holds its
   original contents or the complete data of one writer, the last to rename.
   */
  lemma TargetIsWhole(files: map<Name, Bytes>, events: seq<Event>)
    ensures var d := Run(Begin(files), events);
            if d.installed == [] then Look(d.files, Target) == Look(files, Target)
            else var s := d.installed[|d.installed| - 1];
                 s in d.started && Look(d.files, Target) == Some(d.started[s])
  {
    RunInv(files, events);
    var d := Run(Begin(files), events);
    if d.installed != [] { assert d.installed[|d.installed| - 1] in d.installed; }
  }

  /** A call that returned an error never changed the target; one that returned success did install its data. */
  lemma ErrorsInstallNothing(files: map<Name, Bytes>, events: seq<Event>, s: Bytes)
    requires var d := Run(Begin(files), events); s in d.writers && d.writers[s].stage.Returned?
    ensures var d := Run(Begin(files), events);
            d.writers[s].stage.ok <==> s in d.installed
  {
    RunInv(files, events);
    assert WriterOk(Run(Begin(files), events), s, Run(Begin(files), events).writers[s]);
  }

  /** The start of a call: the temporary file is there, and empty. */
  lemma WriterBegins(files: map<Name, Bytes>, s: Bytes, data: Bytes, cleans: bool)
    requires Temp(s) !in files
    ensures Run(Begin(files), [Start(s, data), Open(s, cleans)]) ==
            Midway(files, s, data, 0)
  {
    var begun := [Start(s, data), Open(s, cleans)];
    assert begun[..1] == [Start(s, data)] && [Start(s, data)][..0] == [];
    assert Run(Begin(files), []) == Begin(files);
    assert Run(Begin(files), [Start(s, data)]) == Disk(files, map[s := Writer(data, Ready)], map[s := data], []);
  }

  /**
   A writer nobody stops gets its data in place: opened, written in any number of
   pieces and renamed, it installs everything and leaves no temporary file.
   */
  lemma WriterCompletes(files: map<Name, Bytes>, s: Bytes, data: Bytes, cleans: bool, counts: seq<nat>)
    requires Temp(s) !in files && |data| <= Total(counts)
    ensures Run(Begin(files), [Start(s, data), Open(s, cleans)] + Writes(s, counts) + [Event.Rename(s)]) ==
            Disk(files[Target := data], map[s := Writer(data, Returned(true))], map[s := data], [s])
  {
    var begun := [Start(s, data), Open(s, cleans)];
    WriterBegins(files, s, data, cleans);
    WritesAll(files, s, data, begun, counts);
    RunSnoc(Begin(files), begun + Writes(s, counts), Event.Rename(s));
    RenameOne(files, s, data);
  }

  lemma RunSnoc(d: Disk, events: seq<Event>, e: Event)
    ensures Run(d, events + [e]) == Next(Run(d, events), e)
  {
    assert (events + [e])[..|events|] == events;
  }

  function Total(counts: seq<nat>): nat {
    if counts == [] then 0 else Total(counts[..|counts| - 1]) + counts[|counts| - 1]
  }

  function Writes(s: Bytes, counts: seq<nat>): (r: seq<Event>)
    ensures |r| == |counts|
  {
    seq(|counts|, i requires 0 <= i < |counts| => Event.Write(s, counts[i]))
  }

  function Least(a: nat, b: nat): nat {
    if a < b then a else b
  }

  /** A writer, by itself, with `k` octets written. */
  function Midway(files: map<Name, Bytes>, s: Bytes, data: Bytes, k: nat): Disk
    requires k <= |data|
  {
    Disk(files[Temp(s) := data[..k]], map[s := Writer(data, Writing(k))], map[s := data], [])
  }

  lemma WriteOne(d: Disk, d': Disk, files: map<Name, Bytes>, s: Bytes, data: Bytes, k: nat, count: nat)
    requires k <= |data| && d == Midway(files, s, data, k) && d' == Next(d, Write(s, count))
    ensures d' == Midway(files, s, data, Least(k + count, |data|))
  {
  }

  lemma RenameOne(files: map<Name, Bytes>, s: Bytes, data: Bytes)
    requires Temp(s) !in files
    ensures Next(Midway(files, s, data, |data|), Event.Rename(s)) ==
            Disk(files[Target := data], map[s := Writer(data, Returned(true))], map[s := data], [s])
  {
    assert data[..|data|] == data;
    assert (files[Temp(s) := data] - {Temp(s)})[Target := data] == files[Target := data];
  }

  lemma WritesSnoc(d: Disk, s: Bytes, begun: seq<Event>, counts: seq<nat>)
    requires counts != []
    ensures Run(d, begun + Writes(s, counts)) ==
            Next(Run(d, begun + Writes(s, counts[..|counts| - 1])), Event.Write(s, counts[|counts| - 1]))
  {
    var last := Event.Write(s, counts[|counts| - 1]);
    assert begun + Writes(s, counts) == begun + Writes(s, counts[..|counts| - 1]) + [last];
    RunSnoc(d, begun + Writes(s, counts[..|counts| - 1]), last);
  }

  lemma {:induction false} WritesAll(files: map<Name, Bytes>, s: Bytes, data: Bytes, begun: seq<Event>, counts: seq<nat>)
    requires Run(Begin(files), begun) == Midway(files, s, data, 0)
    ensures Run(Begin(files), begun + Writes(s, counts)) == Midway(files, s, data, Least(Total(counts), |data|))
    decreases |counts|
  {
    if counts == [] {
      assert begun + Writes(s, counts) == begun;
    } else {
      var init := counts[..|counts| - 1];
      WritesAll(files, s, data, begun, init);
      WritesSnoc(Begin(files), s, begun, counts);
      var k, count := Least(Total(init), |data|), counts[|counts| - 1];
      assert Least(Total(counts), |data|) == Least(k + count, |data|);
      WriteOne(Run(Begin(files), begun + Writes(s, init)), Run(Begin(files), begun + Writes(s, counts)),
               files, s, data, k, count);
    }
  }
}
