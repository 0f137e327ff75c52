/** Uploaded videos: a catalog of records, an object store, and a local cache of files. */
module UploadCatalog {
  import opened Wrappers

  datatype Label = Label(text: string)

  datatype Content = Content(bytes: seq<bv8>)

  /** A record of the catalog; without an object store the video lives in the local file alone. */
  datatype Record = Record(hasObject: bool, title: string)

  /** The three stores, by the unique label of an upload, and what was uploaded under each label. */
  datatype Stores = Stores(catalog: map<Label, Record>, objects: map<Label, Content>, files: map<Label, Content>,
                           uploaded: map<Label, Content>)

  // ----- What the stores promise

  ghost predicate Faithful(copies: map<Label, Content>, uploaded: map<Label, Content>) {
    forall k :: k in copies ==> k in uploaded && copies[k] == uploaded[k]
  }

  /** No record dangles: its object, or without one its file, is there. */
  ghost predicate NoDangling(s: Stores) {
    forall k :: k in s.catalog ==> k in s.uploaded && (if s.catalog[k].hasObject then k in s.objects else k in s.files)
  }

  ghost predicate Sound(s: Stores) {
    Faithful(s.objects, s.uploaded) && Faithful(s.files, s.uploaded) && NoDangling(s)
  }

  /** A catalogued upload with an object has its object, with the bytes that were uploaded, and any
      cached file of it equals the object. */
  lemma SoundStores(s: Stores, id: Label)
    requires Sound(s) && id in s.catalog && s.catalog[id].hasObject
    ensures id in s.objects && id in s.uploaded && s.objects[id] == s.uploaded[id]
    ensures id in s.files ==> s.files[id] == s.objects[id]
  {
  }

  // ----- The operations, where any remote call can fail

  function Without<T>(m: map<Label, T>, id: Label, ok: bool): map<Label, T> {
    if ok then m - {id} else m
  }

  datatype DeleteOutcome = NotFound | Failed | Deleted | CleanupPending

  class CatalogStore {
    const remote: bool
    var s: Stores

    constructor (remote: bool)
      ensures Sound(s) && this.remote == remote && s == Stores(map[], map[], map[], map[])
    {
      this.remote := remote;
      s := Stores(map[], map[], map[], map[]);
    }

    method Undo(id: Label, undoObject: bool, undoFile: bool)
      modifies this
      ensures s == old(s).(objects := Without(old(s).objects, id, undoObject), files := Without(old(s).files, id, undoFile))
    {
      if undoObject {
        s := s.(objects := s.objects - {id});
      }
      if undoFile {
        s := s.(files := s.files - {id});
      }
    }

    /** Creates an upload whose file has been staged and validated. A failed step is undone in
        reverse order; the undoing can fail as well. */
    method Create(id: Label, title: string, content: Content, upload: bool, save: bool, undoObject: bool, undoFile: bool)
      returns (created: bool)
      requires Sound(s) && id !in s.uploaded
      modifies this
      ensures Sound(s) && s.uploaded == old(s.uploaded)[id := content]
      ensures created == ((!remote || upload) && save)
      ensures created ==>
        && s.catalog == old(s.catalog)[id := Record(remote, title)]
        && s.files == old(s.files)[id := content]
        && s.objects == if remote then old(s.objects)[id := content] else old(s.objects)
      ensures !created ==> s.catalog == old(s.catalog)
      ensures !created && undoObject && undoFile ==> s.files == old(s.files) && s.objects == old(s.objects)
      ensures s == Run(System(remote, old(s), Idle, map[]), CreateEvents(id, title, content, upload, save, undoObject, undoFile)).s
    {
      hide Sound;
      hide Run;
      hide Next;
      hide CreateEvents;
      CreateRuns(System(remote, s, Idle, map[]), id, title, content, upload, save, undoObject, undoFile);
      NewLabel(s, id);
      PutAndRemove(s.files, id, content);
      PutAndRemove(s.objects, id, content);
      s := s.(files := s.files[id := content], uploaded := s.uploaded[id := content]);
      if remote {
        if !upload {
          Undo(id, false, undoFile);
          return false;
        }
        s := s.(objects := s.objects[id := content]);
      }
      if !save {
        Undo(id, remote && undoObject, undoFile);
        return false;
      }
      s := s.(catalog := s.catalog[id := Record(remote, title)]);
      return true;
    }

    /** The content of an upload, from the cache or else downloaded into it. If the metadata cannot
        be written after the download, the caller gets an error and the file stays cached. */
    method Resolve(id: Label, download: bool, metadata: bool) returns (content: Option<Content>)
      requires Sound(s)
      modifies this
      ensures Sound(s) && s.catalog == old(s.catalog) && s.objects == old(s.objects) && s.uploaded == old(s.uploaded)
      ensures content.Some? ==> id in s.catalog && id in s.files && content.value == s.uploaded[id]
      ensures content.Some? <==> id in s.catalog && (id in old(s.files) || (download && metadata))
      ensures s.files == if id in s.catalog && download then old(s.files)[id := s.uploaded[id]] else old(s.files)
      ensures s == Run(System(remote, old(s), Idle, map[]), [Find(0, id), Serve(0, download)]).s
    {
      RunTwo(System(remote, s, Idle, map[]), Find(0, id), Serve(0, download));
      if id !in s.catalog {
        return None;
      }
      if id in s.files {
        return Some(s.files[id]);
      }
      if !s.catalog[id].hasObject || !download {
        return None;
      }
      s := s.(files := s.files[id := s.objects[id]]);
      if !metadata {
        return None;
      }
      return Some(s.files[id]);
    }

    method Update(id: Label, title: string, save: bool) returns (updated: bool)
      requires Sound(s)
      modifies this
      ensures Sound(s) && updated == (id in old(s.catalog) && save)
      ensures s == if updated then old(s).(catalog := old(s.catalog)[id := old(s.catalog)[id].(title := title)]) else old(s)
      ensures s == Next(System(remote, old(s), Idle, map[]), Retitle(id, title, save)).s
    {
      if id !in s.catalog || !save {
        return false;
      }
      s := s.(catalog := s.catalog[id := s.catalog[id].(title := title)]);
      return true;
    }

    /** The record goes first, then the cache, then the object. */
    method Delete(id: Label, drop: bool, dropCache: bool, dropObject: bool) returns (outcome: DeleteOutcome)
      requires Sound(s)
      modifies this
      ensures Sound(s) && s.uploaded == old(s.uploaded)
      ensures id !in old(s.catalog) ==> outcome == NotFound && s == old(s)
      ensures id in old(s.catalog) && !drop ==> outcome == Failed && s == old(s)
      ensures id in old(s.catalog) && drop ==>
        && outcome == (if dropCache && (dropObject || !old(s.catalog)[id].hasObject) then Deleted else CleanupPending)
        && s.catalog == old(s.catalog) - {id}
        && s.files == (if dropCache then old(s.files) - {id} else old(s.files))
        && s.objects == (if dropObject && old(s.catalog)[id].hasObject then old(s.objects) - {id} else old(s.objects))
      ensures s == Run(System(remote, old(s), Idle, map[]), [DropRecord(id, drop), DropCache(dropCache), DropObject(dropObject)]).s
    {
      DeleteRuns(System(remote, s, Idle, map[]), id, drop, dropCache, dropObject);
      if id !in s.catalog {
        return NotFound;
      }
      var record := s.catalog[id];
      if !drop {
        return Failed;
      }
      s := s.(catalog := s.catalog - {id});
      outcome := Deleted;
      if dropCache {
        s := s.(files := s.files - {id});
      } else {
        outcome := CleanupPending;
      }
      if record.hasObject {
        if dropObject {
          s := s.(objects := s.objects - {id});
        } else {
          outcome := CleanupPending;
        }
      }
    }
  }

  lemma PutAndRemove<T>(m: map<Label, T>, id: Label, value: T)
    ensures id !in m ==> m[id := value] - {id} == m
  {
  }

  lemma NewLabel(s: Stores, id: Label)
    requires Sound(s) && id !in s.uploaded
    ensures id !in s.catalog && id !in s.objects && id !in s.files
  {
  }

  // ----- Crashes and concurrent readers

  /** How far the one writer of the moment has come. */
  datatype Writer =
    | Idle
    | FileWritten(id: Label, title: string)
    | ObjectWritten(id: Label, title: string)
    | UndoObject(id: Label)
    | UndoFile(id: Label)
    | RecordDropped(id: Label, hadObject: bool)
    | CacheDropped(id: Label, hadObject: bool)

  /** Readers have found a record and are about to look for its file. */
  datatype System = System(remote: bool, s: Stores, writer: Writer, readers: map<int, Label>)

  /** A step either succeeds or fails for certain; a crash stops every process between two steps. */
  datatype Event =
    | WriteFile(id: Label, title: string, content: Content)
    | WriteObject(ok: bool)
    | SaveRecord(ok: bool)
    | RemoveObject(ok: bool)
    | RemoveFile(ok: bool)
    | DropRecord(id: Label, ok: bool)
    | DropCache(ok: bool)
    | DropObject(ok: bool)
    | Retitle(id: Label, title: string, ok: bool)
    | Find(reader: int, id: Label)
    | Serve(reader: int, ok: bool)
    | Crash

  function Next(t: System, e: Event): System {
    var s, w := t.s, t.writer;
    match e
    case WriteFile(id, title, content) =>
      if !w.Idle? || id in s.uploaded then t
      else t.(s := s.(files := s.files[id := content], uploaded := s.uploaded[id := content]), writer := FileWritten(id, title))
    case WriteObject(ok) =>
      if !w.FileWritten? || !t.remote || w.id !in s.files then t
      else if ok then t.(s := s.(objects := s.objects[w.id := s.files[w.id]]), writer := ObjectWritten(w.id, w.title))
      else t.(writer := UndoFile(w.id))
    case SaveRecord(ok) =>
      if !(w.ObjectWritten? || (w.FileWritten? && !t.remote)) then t
      else if ok then t.(s := s.(catalog := s.catalog[w.id := Record(t.remote, w.title)]), writer := Idle)
      else t.(writer := if t.remote then UndoObject(w.id) else UndoFile(w.id))
    case RemoveObject(ok) =>
      if w.UndoObject? then t.(s := s.(objects := Without(s.objects, w.id, ok)), writer := UndoFile(w.id)) else t
    case RemoveFile(ok) =>
      if w.UndoFile? then t.(s := s.(files := Without(s.files, w.id, ok)), writer := Idle) else t
    case DropRecord(id, ok) =>
      if !w.Idle? || id !in s.catalog || !ok then t
      else t.(s := s.(catalog := s.catalog - {id}), writer := RecordDropped(id, s.catalog[id].hasObject))
    case DropCache(ok) =>
      if w.RecordDropped? then t.(s := s.(files := Without(s.files, w.id, ok)), writer := CacheDropped(w.id, w.hadObject)) else t
    case DropObject(ok) =>
      if w.CacheDropped? then t.(s := s.(objects := Without(s.objects, w.id, ok && w.hadObject)), writer := Idle) else t
    case Retitle(id, title, ok) =>
      if w.Idle? && id in s.catalog && ok then t.(s := s.(catalog := s.catalog[id := s.catalog[id].(title := title)])) else t
    case Find(reader, id) =>
      if id in s.catalog then t.(readers := t.readers[reader := id]) else t
    case Serve(reader, ok) =>
      if reader !in t.readers then t
      else
        var id := t.readers[reader];
        if id !in s.files && id in s.objects && ok then
          t.(s := s.(files := s.files[id := s.objects[id]]), readers := t.readers - {reader})
        else t.(readers := t.readers - {reader})
    case Crash => t.(writer := Idle, readers := map[])
  }

  function Run(t: System, events: seq<Event>): System
    decreases |events|
  {
    if events == [] then t else Run(Next(t, events[0]), events[1..])
  }

  /** The steps of a creation; those that a failure or a missing object store rules out do nothing. */
  function CreateEvents(id: Label, title: string, content: Content, upload: bool, save: bool, undoObject: bool, undoFile: bool)
    : seq<Event>
  {
    [WriteFile(id, title, content), WriteObject(upload), SaveRecord(save), RemoveObject(undoObject), RemoveFile(undoFile)]
  }

  lemma RunOne(t: System, e: Event)
    ensures Run(t, [e]) == Next(t, e)
  {
    hide Next;
    assert [e][1..] == [];
  }

  lemma RunFirst(t: System, e: Event, rest: seq<Event>)
    ensures Run(t, [e] + rest) == Run(Next(t, e), rest)
  {
    hide Next;
    assert ([e] + rest)[1..] == rest;
  }

  lemma RunTwo(t: System, a: Event, b: Event)
    ensures Run(t, [a, b]) == Next(Next(t, a), b)
  {
    hide Next;
    hide Run;
    assert [a, b] == [a] + [b];
    RunFirst(t, a, [b]);
    RunOne(Next(t, a), b);
  }

  lemma RunThree(t: System, a: Event, b: Event, c: Event)
    ensures Run(t, [a, b, c]) == Next(Next(Next(t, a), b), c)
  {
    hide Next;
    hide Run;
    assert [a, b, c] == [a] + [b, c];
    RunFirst(t, a, [b, c]);
    RunTwo(Next(t, a), b, c);
  }

  lemma DeleteRuns(t: System, id: Label, drop: bool, dropCache: bool, dropObject: bool)
    requires Sound(t.s) && t.writer.Idle?
    ensures var after := Run(t, [DropRecord(id, drop), DropCache(dropCache), DropObject(dropObject)]).s;
            if id !in t.s.catalog || !drop then after == t.s
            else after == t.s.(catalog := t.s.catalog - {id}, files := Without(t.s.files, id, dropCache),
                               objects := Without(t.s.objects, id, dropObject && t.s.catalog[id].hasObject))
  {
    hide Run;
    RunThree(t, DropRecord(id, drop), DropCache(dropCache), DropObject(dropObject));
  }

  lemma CreateRuns(t: System, id: Label, title: string, content: Content, upload: bool, save: bool, undoObject: bool, undoFile: bool)
    requires Sound(t.s) && t.writer.Idle? && t.readers == map[] && id !in t.s.uploaded
    ensures var after := Run(t, CreateEvents(id, title, content, upload, save, undoObject, undoFile)).s;
            Sound(after)
    ensures var after := Run(t, CreateEvents(id, title, content, upload, save, undoObject, undoFile)).s;
            var put := t.s.(files := t.s.files[id := content], uploaded := t.s.uploaded[id := content]);
            var stored := if t.remote then put.(objects := put.objects[id := content]) else put;
            if t.remote && !upload then after == put.(files := Without(put.files, id, undoFile))
            else if save then after == stored.(catalog := stored.catalog[id := Record(t.remote, title)])
            else after == stored.(files := Without(stored.files, id, undoFile), objects := Without(stored.objects, id, t.remote && undoObject))
  {
    hide Run;
    var events := CreateEvents(id, title, content, upload, save, undoObject, undoFile);
    var written := Next(t, events[0]);
    assert events == [events[0]] + [events[1], events[2], events[3], events[4]];
    RunFirst(t, events[0], [events[1], events[2], events[3], events[4]]);
    assert [events[1], events[2], events[3], events[4]] == [events[1]] + [events[2], events[3], events[4]];
    RunFirst(written, events[1], [events[2], events[3], events[4]]);
    RunThree(Next(written, events[1]), events[2], events[3], events[4]);
    RunsAreSound(t, events);
  }

  /** The writer works on a label outside the catalog, and before it saves the record everything
      the record needs is in place. */
  ghost predicate WriterInPlace(t: System) {
    match t.writer
    case Idle => true
    case FileWritten(id, _) => id !in t.s.catalog && id in t.s.files
    case ObjectWritten(id, _) => id !in t.s.catalog && id in t.s.files && (t.remote ==> id in t.s.objects)
    case UndoObject(id) => id !in t.s.catalog
    case UndoFile(id) => id !in t.s.catalog
    case RecordDropped(id, _) => id !in t.s.catalog
    case CacheDropped(id, _) => id !in t.s.catalog
  }

  ghost predicate Invariant(t: System) {
    Sound(t.s) && WriterInPlace(t) && forall r :: r in t.readers ==> t.readers[r] in t.s.uploaded
  }

  lemma CreatingKeeps(t: System, e: Event)
    requires Invariant(t) && (e.WriteFile? || e.WriteObject? || e.SaveRecord? || e.RemoveObject? || e.RemoveFile?)
    ensures Invariant(Next(t, e))
  {
    if e.WriteFile? && t.writer.Idle? && e.id !in t.s.uploaded {
      NewLabel(t.s, e.id);
    }
  }

  lemma DeletingKeeps(t: System, e: Event)
    requires Invariant(t) && (e.DropRecord? || e.DropCache? || e.DropObject?)
    ensures Invariant(Next(t, e))
  {
  }

  lemma StepKeeps(t: System, e: Event)
    requires Invariant(t)
    ensures Invariant(Next(t, e))
  {
    if e.WriteFile? || e.WriteObject? || e.SaveRecord? || e.RemoveObject? || e.RemoveFile? {
      CreatingKeeps(t, e);
    } else if e.DropRecord? || e.DropCache? || e.DropObject? {
      DeletingKeeps(t, e);
    }
  }

  /** In every run of creations, deletions, updates and concurrent reads, with a failure or a crash
      at any step: no record dangles, and every object and file holds what was uploaded. */
  lemma {:induction false} RunsAreSound(t: System, events: seq<Event>)
    requires Invariant(t)
    ensures Invariant(Run(t, events))
    decreases |events|
  {
    if events != [] {
      StepKeeps(t, events[0]);
      hide Next;
      hide Invariant;
      RunsAreSound(Next(t, events[0]), events[1..]);
    }
  }

  /** So it is in every run from the empty stores. */
  lemma EveryRunIsSound(remote: bool, events: seq<Event>)
    ensures Invariant(Run(System(remote, Stores(map[], map[], map[], map[]), Idle, map[]), events))
  {
    RunsAreSound(System(remote, Stores(map[], map[], map[], map[]), Idle, map[]), events);
  }

  /** What a reader that found a record is served. */
  function Served(t: System, reader: int, ok: bool, metadata: bool): Option<Content>
    requires reader in t.readers
  {
    var id := t.readers[reader];
    if id in t.s.files then Some(t.s.files[id])
    else if id in t.s.objects && ok && metadata then Some(t.s.objects[id])
    else None
  }

  /** A reader is served nothing but the uploaded bytes, and is served unless the download or writing
      the metadata fails or the upload was deleted meanwhile. */
  lemma ReadersAreServed(start: System, events: seq<Event>, reader: int, ok: bool, metadata: bool)
    requires Invariant(start) && reader in Run(start, events).readers
    ensures var t := Run(start, events);
            var id := t.readers[reader];
            && id in t.s.uploaded
            && (Served(t, reader, ok, metadata).Some? ==> Served(t, reader, ok, metadata).value == t.s.uploaded[id])
            && (Served(t, reader, ok, metadata).Some? <==> id in t.s.files || (id in t.s.objects && ok && metadata))
            && (id in t.s.catalog && ok && metadata ==> Served(t, reader, ok, metadata).Some?)
  {
    RunsAreSound(start, events);
  }

  // ----- What the promise rests on

  /** A crash before the record is saved leaves the object and the file without a record. */
  lemma CrashLeavesOrphans(id: Label, title: string, content: Content)
    ensures var t := Next(Next(Next(System(true, Stores(map[], map[], map[], map[]), Idle, map[]),
                                    WriteFile(id, title, content)), WriteObject(true)), Crash);
            Invariant(t) && t.writer.Idle? && id !in t.s.catalog && id in t.s.objects && id in t.s.files
  {
  }

  /** If saving the record takes effect but reports an error, undoing removes the object under it. */
  lemma UnseenSaveDangles(t: System)
    requires Invariant(t) && t.writer.ObjectWritten? && t.remote
    ensures var saved := t.(s := t.s.(catalog := t.s.catalog[t.writer.id := Record(true, t.writer.title)]), writer := UndoObject(t.writer.id));
            !NoDangling(Next(saved, RemoveObject(true)).s)
  {
    var saved := t.(s := t.s.(catalog := t.s.catalog[t.writer.id := Record(true, t.writer.title)]), writer := UndoObject(t.writer.id));
    var after := Next(saved, RemoveObject(true));
    assert t.writer.id in after.s.catalog && t.writer.id !in after.s.objects;
  }

  /** Saving inserts a missing record. If a second process, outside the lock, finds a record, a
      deletion removes everything, and the second process then saves what it found, the record is
      back without its object. */
  lemma UnserialisedUpdateDangles(t: System, id: Label, title: string)
    requires Invariant(t) && t.writer.Idle? && id in t.s.catalog && t.s.catalog[id].hasObject
    ensures var found := t.s.catalog[id];
            var gone := Next(Next(Next(t, DropRecord(id, true)), DropCache(true)), DropObject(true));
            var saved := gone.s.(catalog := gone.s.catalog[id := found.(title := title)]);
            Invariant(gone) && !NoDangling(saved)
  {
    var t1 := Next(t, DropRecord(id, true));
    var t2 := Next(t1, DropCache(true));
    var t3 := Next(t2, DropObject(true));
    StepKeeps(t, DropRecord(id, true));
    StepKeeps(t1, DropCache(true));
    StepKeeps(t2, DropObject(true));
    var saved := t3.s.(catalog := t3.s.catalog[id := t.s.catalog[id].(title := title)]);
    assert id in saved.catalog && id !in saved.objects;
  }
}
