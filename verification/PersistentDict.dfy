/**
 A dictionary kept in a file.  Every save writes a temporary file, syncs it and moves it over the
 target, so that the target is whole at any moment, even though a power loss may lose or garble texts that
 were not synced and undo changes of names, which are never synced.
 */
module PersistentDict {
  import opened Prelude

  /** The files of the disk, by path. */
  type Files = map<string, string>

  /** What reading makes of a text; one that is not even text in the encoding makes the load raise. */
  datatype Reading<V> = Object(members: map<string, V>) | NotAnObject | NotJson | NotText

  /** Writing fails on values that have no encoding. */
  datatype Codec<!V> = Codec(encode: map<string, V> -> Option<string>, decode: string -> Reading<V>)

  /** Decoding undoes encoding. */
  ghost predicate RoundTrips<V(!new)>(codec: Codec<V>) {
    forall d: map<string, V> :: codec.encode(d).Some? ==> codec.decode(codec.encode(d).value) == Object(d)
  }

  /** What loading makes of the target file: a missing file or one without an object leaves `current`. */
  function Loaded<V>(codec: Codec<V>, files: Files, path: string, current: map<string, V>): Option<map<string, V>> {
    if path !in files then Some(current)
    else
      match codec.decode(files[path])
      case Object(d) => Some(d)
      case NotAnObject => Some(current)
      case NotJson => Some(map[])
      case NotText => None
  }

  /** What a new dictionary on these files starts with, if it can be opened. */
  function Recovered<V>(codec: Codec<V>, files: Files, path: string): Option<map<string, V>> {
    Loaded(codec, files, path, map[])
  }

  /** A new dictionary is empty without a file or with one that holds no object; one that is not text raises. */
  lemma RecoveredIs<V>(codec: Codec<V>, files: Files, path: string)
    ensures Recovered(codec, files, path).None? <==> path in files && codec.decode(files[path]) == NotText
    ensures Recovered(codec, files, path).Some? ==>
              Recovered(codec, files, path).value
              == if path !in files then map[]
                 else match codec.decode(files[path])
                      case Object(members) => members
                      case _ => map[]
  {
  }

  /** Where a save goes wrong, if it does. */
  datatype Fault = NoFault | CannotCreate | CannotWrite(after: nat) | CannotSync | CannotReplace

  // ----- The disk -----

  /** A state of the disk: its files, the names of those whose text is safe, and the name last written to, if any. */
  datatype Snapshot = Snapshot(files: Files, synced: set<string>, wrote: set<string>)

  /**
   What a power loss may leave: the names as they were at entry `k` of the record.  A text that was safe
   then and has not been written to since is intact, any other may be lost or be any text.
   */
  ghost predicate FallsBackTo(history: seq<Snapshot>, k: nat, image: Files)
    requires k < |history|
  {
    && image.Keys <= history[k].files.Keys
    && forall name :: name in history[k].files && name in history[k].synced && NotWritten(history, k, name) ==>
         name in image && image[name] == history[k].files[name]
  }

  ghost predicate NotWritten(history: seq<Snapshot>, k: nat, name: string) {
    forall j :: k < j < |history| ==> name !in history[j].wrote
  }

  /** A power loss at an earlier moment leaves nothing that one now could not leave. */
  lemma EarlierLossLeavesLess(history: seq<Snapshot>, n: nat, k: nat, image: Files)
    requires k < n <= |history| && FallsBackTo(history[..n], k, image)
    ensures FallsBackTo(history, k, image)
  {
    forall name | NotWritten(history, k, name)
      ensures NotWritten(history[..n], k, name)
    {
    }
  }

  /** The disk, with a record of every state it passes through; names are safe as of entry `settled` or a later one. */
  class Disk {
    var files: Files
    ghost var synced: set<string>
    ghost var history: seq<Snapshot>
    ghost var settled: nat

    constructor (files: Files)
      ensures this.files == files && synced == files.Keys && settled == 0
      ensures history == [Snapshot(files, files.Keys, {})]
    {
      this.files, synced, history, settled := files, files.Keys, [Snapshot(files, files.Keys, {})], 0;
    }

    ghost predicate Recorded()
      reads this
    {
      && settled < |history|
      && history[|history| - 1].files == files && history[|history| - 1].synced == synced
    }

    /** What a power loss may leave now. */
    ghost predicate MayLeave(image: Files)
      reads this
    {
      exists k :: settled <= k < |history| && FallsBackTo(history, k, image)
    }

    method Write(name: string, text: string)
      modifies this`files, this`synced, this`history
      ensures files == old(files)[name := text] && synced == old(synced) - {name}
      ensures history == old(history) + [Snapshot(files, synced, {name})]
    {
      files, synced := files[name := text], synced - {name};
      history := history + [Snapshot(files, synced, {name})];
    }

    method Sync(name: string)
      modifies this`synced, this`history
      ensures synced == old(synced) + {name} && history == old(history) + [Snapshot(files, synced, {})]
    {
      synced := synced + {name};
      history := history + [Snapshot(files, synced, {})];
    }

    /** Moving a file over another is one operation; its text is as safe at the new name as it was at the old. */
    method Replace(name: string, path: string)
      requires name in files && name != path
      modifies this`files, this`synced, this`history
      ensures files == (old(files) - {name})[path := old(files)[name]]
      ensures synced == old(synced) - {name, path} + if name in old(synced) then {path} else {}
      ensures history == old(history) + [Snapshot(files, synced, {})]
    {
      files := (files - {name})[path := files[name]];
      synced := synced - {name, path} + if name in synced then {path} else {};
      history := history + [Snapshot(files, synced, {})];
    }

    method Unlink(name: string)
      modifies this`files, this`synced, this`history
      ensures files == old(files) - {name} && synced == old(synced) - {name}
      ensures history == old(history) + [Snapshot(files, synced, {})]
    {
      files, synced := files - {name}, synced - {name};
      history := history + [Snapshot(files, synced, {})];
    }

    /** Syncing the directory, which the dictionary never does: no change of names so far can be undone any more. */
    method SyncNames()
      requires history != []
      modifies this`settled
      ensures settled == |history| - 1
    {
      settled := |history| - 1;
    }
  }

  // ----- Whole targets -----

  /** The target is absent or its text is safe. */
  ghost predicate Durable(s: Snapshot, path: string) {
    path in s.files ==> path in s.synced
  }

  /** From entry `since` on the target is safe at every moment, and only ever replaced, never written to. */
  ghost predicate Whole(history: seq<Snapshot>, since: nat, path: string) {
    && (forall k :: since <= k < |history| ==> Durable(history[k], path))
    && (forall k :: since < k < |history| ==> path !in history[k].wrote)
  }

  /** Whatever else a power loss does, falling back on a whole target recovers what that held. */
  lemma WholeTargetRecovers<V(!new)>(codec: Codec<V>, history: seq<Snapshot>, since: nat, k: nat, image: Files,
                                     path: string)
    requires Whole(history, since, path) && since <= k < |history| && FallsBackTo(history, k, image)
    ensures Recovered(codec, image, path) == Recovered(codec, history[k].files, path)
  {
    assert NotWritten(history, k, path);
  }

  /** Apart from the temporary file the disk is as it was. */
  predicate SameApartFrom(a: Files, b: Files, tmp: string) {
    a - {tmp} == b - {tmp}
  }

  /** A disk state reached during a save: the old target, or the complete new one. */
  ghost predicate OldOrNewTarget(before: Files, during: Files, tmp: string, path: string, text: Option<string>) {
    SameApartFrom(during, before, tmp) || (text.Some? && during == before[path := text.value])
  }

  lemma OldOrNewRecovers<V(!new)>(codec: Codec<V>, before: Files, during: Files, tmp: string, path: string,
                                  data: map<string, V>)
    requires RoundTrips(codec) && tmp != path
    requires OldOrNewTarget(before, during, tmp, path, codec.encode(data))
    ensures Recovered(codec, during, path) == Recovered(codec, before, path)
            || Recovered(codec, during, path) == Some(data)
  {
    if SameApartFrom(during, before, tmp) {
      assert path in during <==> path in during - {tmp};
      assert path in before <==> path in before - {tmp};
      assert path in before ==> (during - {tmp})[path] == (before - {tmp})[path];
    }
  }

  /** What a temporary file does to the disk, and what moving it away or removing it leaves. */
  lemma TemporaryFile(before: Files, tmp: string, path: string, text: string)
    requires tmp !in before && tmp != path
    ensures SameApartFrom(before[tmp := text], before, tmp) && SameApartFrom(before, before, tmp)
    ensures before[tmp := text] - {tmp} == before
    ensures (before[tmp := text] - {tmp})[path := text] == before[path := text]
  {
  }

  /** What the target held at each entry of a record. */
  ghost function Holdings<V>(codec: Codec<V>, history: seq<Snapshot>, path: string): seq<Option<map<string, V>>> {
    if history == [] then []
    else
      var n := |history| - 1;
      Holdings(codec, history[..n], path) + [Recovered(codec, history[n].files, path)]
  }

  lemma {:induction false} HoldingsAre<V>(codec: Codec<V>, history: seq<Snapshot>, since: nat, path: string)
    requires since < |history|
    ensures var held := Holdings(codec, history[since..], path);
            && held != [] && held[|held| - 1] == Recovered(codec, history[|history| - 1].files, path)
            && forall k :: since <= k < |history| ==> Recovered(codec, history[k].files, path) in held
    decreases |history|
  {
    hide Recovered;
    var n := |history| - 1;
    assert history[since..][..n - since] == history[..n][since..];
    if since < n {
      HoldingsAre(codec, history[..n], since, path);
      assert forall k :: since <= k < n ==> history[..n][k] == history[k];
    }
  }

  // ----- The dictionary -----

  class PersistentDict<V(!new)> {
    const path: string
    const autosave: bool
    const codec: Codec<V>
    const disk: Disk
    var data: map<string, V>
    /** What the disk could fall back to as the dictionary was opened, and then what it held after each operation. */
    ghost var past: seq<Option<map<string, V>>>
    ghost const born: nat  // the entry of the disk's record as of which names were safe then

    /** Opening raises on a file that is not text. */
    constructor (path: string, autosave: bool, codec: Codec<V>, disk: Disk)
      requires RoundTrips(codec) && disk.Recorded() && Whole(disk.history, disk.settled, path)
      requires Recovered(codec, disk.files, path).Some?
      ensures this.path == path && this.autosave == autosave && this.codec == codec && this.disk == disk
      ensures Valid() && Agrees()
      ensures data == if path !in disk.files then map[]
                      else match codec.decode(disk.files[path])
                           case Object(members) => members
                           case _ => map[]
    {
      hide Recovered, Whole, RoundTrips, Holdings;
      this.path, this.autosave, this.codec, this.disk := path, autosave, codec, disk;
      data := Recovered(codec, disk.files, path).value;
      past := Holdings(codec, disk.history[disk.settled..], path);
      born := disk.settled;
      new;
      HoldingsAre(codec, disk.history, disk.settled, path);
      RecoveredIs(codec, disk.files, path);
    }

    /** At every moment since then the target has been whole, and what it held the dictionary once held. */
    ghost predicate Valid()
      reads this, disk
    {
      && RoundTrips(codec) && disk.Recorded()
      && past != [] && past[|past| - 1] == Some(data)
      && born <= disk.settled && Whole(disk.history, born, path)
      && forall k :: born <= k < |disk.history| ==> Recovered(codec, disk.history[k].files, path) in past
    }

    /** Crash consistency: whatever a power loss leaves, a new dictionary would hold what this one once held. */
    lemma PowerLossRecoversPast(image: Files)
      requires Valid() && disk.MayLeave(image)
      ensures Recovered(codec, image, path) in past
    {
      hide Recovered, Whole, FallsBackTo;
      var k :| disk.settled <= k < |disk.history| && FallsBackTo(disk.history, k, image);
      WholeTargetRecovers(codec, disk.history, born, k, image, path);
    }

    ghost predicate Agrees()
      reads this, disk
    {
      Recovered(codec, disk.files, path) == Some(data)
    }

    /** No power loss can lose the contents. */
    ghost predicate Secured()
      reads this, disk
    {
      forall image :: disk.MayLeave(image) ==> Recovered(codec, image, path) == Some(data)
    }

    /** The contents are secured exactly when the file has held them ever since names were last safe. */
    lemma SecuredIff()
      requires Valid()
      ensures Secured() <==> forall k :: disk.settled <= k < |disk.history| ==>
                               Recovered(codec, disk.history[k].files, path) == Some(data)
    {
      hide Recovered, Whole;
      forall k, image | disk.settled <= k < |disk.history| && FallsBackTo(disk.history, k, image)
        ensures Recovered(codec, image, path) == Recovered(codec, disk.history[k].files, path)
      {
        WholeTargetRecovers(codec, disk.history, born, k, image, path);
      }
      forall k | disk.settled <= k < |disk.history|
        ensures disk.MayLeave(disk.history[k].files)
      {
        assert FallsBackTo(disk.history, k, disk.history[k].files);
      }
    }

    /** Once the names are synced as well, a saved dictionary is secured. */
    lemma SettledIsSecured()
      requires Valid() && Agrees() && disk.settled == |disk.history| - 1
      ensures Secured()
    {
      hide Recovered, Whole;
      SecuredIff();
    }

    /** Stopped anywhere in the operation, a process leaves the contents before it, or `next`. */
    twostate predicate OldOrNew(next: map<string, V>)
      reads this, disk
    {
      && old(disk.history) <= disk.history
      && forall i :: |old(disk.history)| <= i < |disk.history| ==>
           || Recovered(codec, disk.history[i].files, path) == old(Recovered(codec, disk.files, path))
           || Recovered(codec, disk.history[i].files, path) == Some(next)
    }

    /**
     Writes one character at a time, so that the record shows every partial file.  `fault` says where
     the environment makes the save fail, `partial` what is written of contents that have no encoding;
     the temporary file goes in the end in any case.
     */
    method AtomicWrite(tmp: string, fault: Fault, partial: string) returns (ok: bool)
      requires tmp != path && tmp !in disk.files
      requires disk.Recorded() && Durable(disk.history[|disk.history| - 1], path)
      modifies disk`files, disk`synced, disk`history
      ensures ok <==> fault == NoFault && codec.encode(data).Some?
      ensures disk.files == if ok then old(disk.files)[path := codec.encode(data).value] else old(disk.files)
      ensures old(disk.history) <= disk.history && disk.Recorded()
      ensures forall i :: |old(disk.history)| <= i < |disk.history| ==>
                && OldOrNewTarget(old(disk.files), disk.history[i].files, tmp, path, codec.encode(data))
                && Durable(disk.history[i], path) && path !in disk.history[i].wrote
    {
      hide Recovered, SameApartFrom;
      if fault == CannotCreate {
        return false;
      }
      var encoded := codec.encode(data);
      var text := if encoded.Some? then encoded.value else partial;
      var stop := if fault.CannotWrite? && fault.after < |text| then fault.after else |text|;
      WriteText(tmp, text, stop);
      TemporaryFile(old(disk.files), tmp, path, text[..stop]);
      if encoded.Some? && !fault.CannotWrite? && fault != CannotSync {
        disk.Sync(tmp);
      }
      ok := fault == NoFault && encoded.Some?;
      if ok {
        assert text[..stop] == text;
        disk.Replace(tmp, path);
      } else {
        disk.Unlink(tmp);
      }
    }

    /** Creates the file and writes the first `stop` characters of the text, one by one. */
    method WriteText(tmp: string, text: string, stop: nat)
      requires stop <= |text| && tmp !in disk.files
      requires tmp != path && disk.Recorded() && Durable(disk.history[|disk.history| - 1], path)
      modifies disk`files, disk`synced, disk`history
      ensures disk.files == old(disk.files)[tmp := text[..stop]] && disk.synced == old(disk.synced) - {tmp}
      ensures old(disk.history) <= disk.history && disk.Recorded()
      ensures forall i :: |old(disk.history)| <= i < |disk.history| ==>
                && SameApartFrom(disk.history[i].files, old(disk.files), tmp)
                && Durable(disk.history[i], path) && path !in disk.history[i].wrote
    {
      disk.Write(tmp, "");
      var n := 0;
      while n < stop
        invariant 0 <= n <= stop
        invariant disk.files == old(disk.files)[tmp := text[..n]] && disk.synced == old(disk.synced) - {tmp}
        invariant old(disk.history) <= disk.history && disk.Recorded()
        invariant forall i :: |old(disk.history)| <= i < |disk.history| ==>
                    && SameApartFrom(disk.history[i].files, old(disk.files), tmp)
                    && Durable(disk.history[i], path) && path !in disk.history[i].wrote
      {
        n := n + 1;
        disk.Write(tmp, text[..n]);
      }
    }

    /**
     Saves.  Memory and file agree afterwards exactly if the save succeeded or the file held the contents
     already.  The names are not synced, so a save never secures contents that the file did not hold before.
     */
    method Save(tmp: string, fault: Fault, partial: string) returns (ok: bool)
      requires Valid() && tmp != path && tmp !in disk.files
      modifies disk`files, disk`synced, disk`history
      ensures Valid() && (ok <==> fault == NoFault && codec.encode(data).Some?)
      ensures disk.files == if ok then old(disk.files)[path := codec.encode(data).value] else old(disk.files)
      ensures Agrees() <==> ok || old(Agrees())
      ensures !old(Agrees()) ==> !Secured()
      ensures OldOrNew(data)
    {
      ok := AtomicWrite(tmp, fault, partial);
      assert ok ==> Recovered(codec, disk.files, path) == Some(data);
      hide Recovered, OldOrNewTarget, Durable;
      forall i | |old(disk.history)| <= i < |disk.history|
        ensures || Recovered(codec, disk.history[i].files, path) == old(Recovered(codec, disk.files, path))
                || Recovered(codec, disk.history[i].files, path) == Some(data)
      {
        OldOrNewRecovers(codec, old(disk.files), disk.history[i].files, tmp, path, data);
      }
      HistoryStaysGood();
      if !old(Agrees()) {
        var k := |old(disk.history)| - 1;
        assert disk.history[k].files == old(disk.files);
        SecuredIff();
      }
    }

    /** What the file held before an operation was held once, and the contents are. */
    twostate lemma HistoryStaysGood()
      requires old(Valid()) && past == old(past) && data == old(data) && OldOrNew(data)
      requires disk.settled == old(disk.settled)
      requires forall i :: |old(disk.history)| <= i < |disk.history| ==>
                 Durable(disk.history[i], path) && path !in disk.history[i].wrote
      ensures Whole(disk.history, born, path)
      ensures forall k :: born <= k < |disk.history| ==> Recovered(codec, disk.history[k].files, path) in past
    {
      hide Recovered, Durable;
      var n := |old(disk.history)|;
      assert forall i :: 0 <= i < n ==> disk.history[i] == old(disk.history)[i];
      assert old(Recovered(codec, disk.history[|disk.history| - 1].files, path)) in past;
      assert past[|past| - 1] == Some(data);
    }

    /**
     Every mutation: the new contents in memory first, then, with autosave, on disk.  Stopped anywhere in
     between, the disk recovers what it recovered before, or the new contents.
     */
    method Commit(next: map<string, V>, tmp: string, fault: Fault, partial: string) returns (ok: bool)
      requires Valid() && tmp != path && tmp !in disk.files
      modifies this, disk`files, disk`synced, disk`history
      ensures Valid() && data == next && past == old(past) + [Some(next)]
      ensures ok <==> !autosave || (fault == NoFault && codec.encode(next).Some?)
      ensures !autosave || !ok ==> disk.files == old(disk.files)
      ensures autosave ==> (Agrees() <==> ok || old(Recovered(codec, disk.files, path)) == Some(next))
      ensures old(Recovered(codec, disk.files, path)) != Some(next) ==> !Secured()
      ensures OldOrNew(next)
    {
      hide Recovered, Durable, Whole, FallsBackTo;
      data := next;
      past := past + [Some(next)];
      ok := true;
      if autosave {
        ok := Save(tmp, fault, partial);
      } else if Recovered(codec, disk.files, path) != Some(next) {
        SecuredIff();
      }
    }

    method SetItem(key: string, value: V, tmp: string, fault: Fault, partial: string) returns (ok: bool)
      requires Valid() && tmp != path && tmp !in disk.files
      modifies this, disk`files, disk`synced, disk`history
      ensures Valid() && data == old(data)[key := value]
      ensures autosave && ok ==> Agrees()
      ensures !autosave || !ok ==> disk.files == old(disk.files)
    {
      ok := Commit(data[key := value], tmp, fault, partial);
    }

    /** Deleting a missing key raises before anything is touched. */
    method DelItem(key: string, tmp: string, fault: Fault, partial: string) returns (found: bool, ok: bool)
      requires Valid() && tmp != path && tmp !in disk.files
      modifies this, disk`files, disk`synced, disk`history
      ensures Valid() && (found <==> key in old(data)) && data == old(data) - {key}
      ensures !found ==> !ok && past == old(past)
      ensures autosave && ok ==> Agrees()
      ensures !autosave || !ok ==> disk.files == old(disk.files)
    {
      found := key in data;
      if !found {
        assert data == data - {key};
        return false, false;
      }
      ok := Commit(data - {key}, tmp, fault, partial);
    }

    /** The asynchronous delete ignores a missing key, and saves all the same. */
    method ADelete(key: string, tmp: string, fault: Fault, partial: string) returns (ok: bool)
      requires Valid() && tmp != path && tmp !in disk.files
      modifies this, disk`files, disk`synced, disk`history
      ensures Valid() && data == old(data) - {key}
      ensures autosave && ok ==> Agrees()
      ensures !autosave || !ok ==> disk.files == old(disk.files)
    {
      ok := Commit(data - {key}, tmp, fault, partial);
    }

    method AUpdate(other: map<string, V>, tmp: string, fault: Fault, partial: string) returns (ok: bool)
      requires Valid() && tmp != path && tmp !in disk.files
      modifies this, disk`files, disk`synced, disk`history
      ensures Valid() && data == old(data) + other
      ensures autosave && ok ==> Agrees()
      ensures !autosave || !ok ==> disk.files == old(disk.files)
    {
      ok := Commit(data + other, tmp, fault, partial);
    }

    method Clear(tmp: string, fault: Fault, partial: string) returns (ok: bool)
      requires Valid() && tmp != path && tmp !in disk.files
      modifies this, disk`files, disk`synced, disk`history
      ensures Valid() && data == map[]
      ensures autosave && ok ==> Agrees()
      ensures !autosave || !ok ==> disk.files == old(disk.files)
    {
      ok := Commit(map[], tmp, fault, partial);
    }

    /**
     Reloading brings memory and disk together, unless the file is missing or holds no object; it raises,
     and changes nothing, if the file is not text.
     */
    method Load() returns (ok: bool)
      requires Valid()
      modifies this
      ensures Valid() && (ok <==> path !in disk.files || codec.decode(disk.files[path]) != NotText)
      ensures past == if ok then old(past) + [Some(data)] else old(past)
      ensures data == if path !in disk.files then old(data)
                      else match codec.decode(disk.files[path])
                           case Object(members) => members
                           case NotJson => map[]
                           case _ => old(data)
      ensures ok && path in disk.files && codec.decode(disk.files[path]) != NotAnObject ==> Agrees()
    {
      if path in disk.files {
        match codec.decode(disk.files[path])
        case Object(members) => data := members;
        case NotAnObject =>
        case NotJson => data := map[];
        case NotText => return false;
      }
      ok := true;
      past := past + [Some(data)];
    }
  }
}
