/** src/fileStore.js: stored files and their index, with the bytes written first, the index second and old bytes removed
    last. */
module FileStore {
  import opened Bytes
  import opened FileIndex
  import opened Wrappers

  type Contents = map<string, Buffer>

  /** One moment: the index in memory, the index file (a missing one reads as an empty one), and all other files. */
  datatype Moment = Moment(memory: Index, durable: Index, disk: Contents)

  // ------------------------------------------------------------ consistency

  ghost predicate Backed(hash: Buffer -> string, r: Record, disk: Contents) {
    r.path in disk && |disk[r.path]| == r.size && hash(disk[r.path]) == r.sha256
  }

  /** Every record points to a file with the recorded bytes, and no two records to the same. */
  ghost predicate Consistent(hash: Buffer -> string, index: Index, disk: Contents) {
    && (forall k :: k in index ==> index[k].key == k && Backed(hash, index[k], disk))
    && (forall k, l :: k in index && l in index && index[k].path == index[l].path ==> k == l)
  }

  /** What the running process works with is consistent. */
  ghost predicate Live(hash: Buffer -> string, m: Moment) {
    Consistent(hash, m.memory, m.disk)
  }

  /** And so is what the next process would start with. */
  ghost predicate Sound(hash: Buffer -> string, m: Moment) {
    Live(hash, m) && Consistent(hash, m.durable, m.disk)
  }

  ghost predicate AllLive(hash: Buffer -> string, ms: seq<Moment>) {
    forall i :: 0 <= i < |ms| ==> Live(hash, ms[i])
  }

  ghost predicate AllSound(hash: Buffer -> string, ms: seq<Moment>) {
    forall i :: 0 <= i < |ms| ==> Sound(hash, ms[i])
  }

  ghost predicate Unreferenced(index: Index, path: string) {
    forall k :: k in index ==> index[k].path != path
  }

  /** A newly generated name: no record of either index has it. */
  ghost predicate NewName(m: Moment, path: string) {
    Unreferenced(m.memory, path) && Unreferenced(m.durable, path)
  }

  ghost predicate Describes(hash: Buffer -> string, r: Record, bytes: Buffer) {
    r.size == |bytes| && r.sha256 == hash(bytes)
  }

  lemma ConsistentWithout(hash: Buffer -> string, index: Index, disk: Contents, path: string)
    requires Consistent(hash, index, disk) && Unreferenced(index, path)
    ensures Consistent(hash, index, disk - {path})
  {}

  lemma ConsistentWith(hash: Buffer -> string, index: Index, disk: Contents, path: string, bytes: Buffer)
    requires Consistent(hash, index, disk) && Unreferenced(index, path)
    ensures Consistent(hash, index, disk[path := bytes])
  {}

  lemma ConsistentPut(hash: Buffer -> string, index: Index, disk: Contents, r: Record)
    requires Consistent(hash, index, disk) && Unreferenced(index, r.path) && Backed(hash, r, disk)
    ensures Consistent(hash, index[r.key := r], disk)
  {}

  lemma ConsistentLess(hash: Buffer -> string, index: Index, disk: Contents, keys: set<Key>)
    requires Consistent(hash, index, disk)
    ensures Consistent(hash, index - keys, disk)
  {}

  lemma ReplacedIsUnreferenced(hash: Buffer -> string, index: Index, disk: Contents, r: Record)
    requires Consistent(hash, index, disk) && r.key in index && r.path != index[r.key].path
    ensures Unreferenced(index[r.key := r], index[r.key].path)
  {}

  lemma RemovedIsUnreferenced(hash: Buffer -> string, index: Index, disk: Contents, keys: set<Key>, k: Key)
    requires Consistent(hash, index, disk) && k in index && k in keys
    ensures Unreferenced(index - keys, index[k].path)
  {}

  /** Removing a file that a record points to is what breaks an index. */
  lemma DanglingRecord(hash: Buffer -> string, index: Index, disk: Contents, k: Key)
    requires k in index
    ensures !Consistent(hash, index, disk - {index[k].path})
  {
    assert !Backed(hash, index[k], disk - {index[k].path});
  }

  // ------------------------------------------------------------ what may go wrong

  /** How writing a new file ends: it may fail before it has looked for the file or leave some bytes, and the facts of
      the file may not be readable afterwards. */
  datatype WriteOutcome = Written | NotWritten | Partial(bytes: Buffer) | Unread

  /** How `writeJsonFile` ends: its last step can fail when the new file is already in place. */
  datatype SaveOutcome = Saved | NotSaved | SavedButThrew

  /** What the system does to one operation: the write, the save of the index, and the files that cannot be removed. */
  datatype Faults = Faults(write: WriteOutcome, save: SaveOutcome, stuck: set<string>)

  // ------------------------------------------------------------ the operations, moment by moment

  function Last(m: Moment, later: seq<Moment>): Moment {
    if later == [] then m else later[|later| - 1]
  }

  /** `fs.unlink(path).catch(() => {})`. */
  function DropMoments(m: Moment, path: string, f: Faults): seq<Moment> {
    if path in m.disk && path !in f.stuck then [m.(disk := m.disk - {path})] else []
  }

  /** #saveIndex: the file changes, then the memory. */
  function SaveMoments(m: Moment, index: Index, f: Faults): seq<Moment> {
    match f.save
    case Saved => [m.(durable := index), Moment(index, index, m.disk)]
    case NotSaved => []
    case SavedButThrew => [m.(durable := index)]
  }

  /** Whether #storeBytes succeeds: the write is exclusive. */
  predicate Stores(m: Moment, target: string, f: Faults) {
    target !in m.disk && f.write.Written?
  }

  /** #storeBytes: after any failure but EEXIST the target is removed, even if it was there before. */
  function StoreMoments(m: Moment, target: string, bytes: Buffer, f: Faults): seq<Moment> {
    if f.write.NotWritten? then DropMoments(m, target, f)
    else if target in m.disk then []
    else
      var stored := m.(disk := m.disk[target := if f.write.Partial? then f.write.bytes else bytes]);
      [stored] + if f.write.Written? then [] else DropMoments(stored, target, f)
  }

  /** #commitRecord: the index gets the record, then the replaced file goes; when the save fails, the new file goes. */
  function CommitMoments(m: Moment, r: Record, f: Faults): seq<Moment> {
    var saving := SaveMoments(m, m.memory[r.key := r], f);
    saving +
      if !f.save.Saved? then DropMoments(Last(m, saving), r.path, f)
      else if r.key in m.memory
        && m.memory[r.key].path != r.path then DropMoments(Last(m, saving), m.memory[r.key].path, f)
      else []
  }

  predicate Puts(m: Moment, path: string, f: Faults) {
    Stores(m, path, f) && f.save.Saved?
  }

  /** putUpload, and putArtifact and the imports once the bytes are known: all of them store under a newly generated
      name. */
  function PutMoments(m: Moment, r: Record, bytes: Buffer, f: Faults): seq<Moment> {
    var storing := StoreMoments(m, r.path, bytes, f);
    storing + if Stores(m, r.path, f) then CommitMoments(Last(m, storing), r, f) else []
  }

  /** Images are normalised on import, which may reject them; of the record only `info` is affected. */
  datatype Image = NotImage | Rejected | Normalized(info: string)

  datatype Importing = Importing(key: Key, source: string, target: string, createdAt: int, info: string, image: Image,
      removeSource: bool)

  function ImportedRecord(hash: Buffer -> string, i: Importing, bytes: Buffer): Record {
    Record(i.key, i.target, |bytes|, hash(bytes), i.createdAt, if i.image.Normalized? then i.image.info else i.info)
  }

  /** getReadable: an upload hides the artifact of the same id. */
  function ReadablePath(index: Index, id: string): string {
    if FileKey(id) in index then index[FileKey(id)].path
    else if ArtifactKey(id) in index then index[ArtifactKey(id)].path
    else ""
  }

  /** Whether the source is to go: for an image the readable file of the id decides, which may not be the imported
      one. */
  predicate RemovesSource(index: Index, i: Importing) {
    i.removeSource && i.source != if i.image.NotImage? then i.target else ReadablePath(index, i.key.id)
  }

  /** importArtifactPath, and importLocalPath, which never removes its source. */
  function ImportMoments(hash: Buffer -> string, m: Moment, i: Importing, f: Faults): seq<Moment> {
    if i.source !in m.disk || i.image.Rejected? then []
    else
      var bytes := m.disk[i.source];
      var putting := PutMoments(m, ImportedRecord(hash, i, bytes), bytes, f);
      putting +
        if Puts(m, i.target, f)
          && RemovesSource(Last(m, putting).memory, i) then DropMoments(Last(m, putting), i.source, f)
        else []
  }

  /** The entry whose bytes #remove removes. */
  function FirstKey(index: Index, id: string): Key {
    if FileKey(id) in index then FileKey(id) else ArtifactKey(id)
  }

  function RemoveMoments(m: Moment, id: string, f: Faults): seq<Moment> {
    if FirstKey(m.memory, id) !in m.memory then []
    else
      var saving := SaveMoments(m, m.memory - {FileKey(id), ArtifactKey(id)}, f);
      saving + if f.save.Saved? then DropMoments(Last(m, saving), m.memory[FirstKey(m.memory, id)].path, f) else []
  }

  function DropAllMoments(m: Moment, removed: seq<Record>, f: Faults): seq<Moment>
    decreases |removed|
  {
    if removed == [] then []
    else
      var dropping := DropMoments(m, removed[0].path, f);
      dropping + DropAllMoments(Last(m, dropping), removed[1..], f)
  }

  /** #pruneArtifacts, once it is known what is to be removed. */
  function PruneMoments(m: Moment, removed: seq<Record>, f: Faults): seq<Moment> {
    if removed == [] then []
    else
      var saving := SaveMoments(m, m.memory - KeysOf(removed), f);
      saving + if f.save.Saved? then DropAllMoments(Last(m, saving), removed, f) else []
  }

  // ------------------------------------------------------------ soundness of one operation

  lemma Join(hash: Buffer -> string, a: seq<Moment>, b: seq<Moment>)
    ensures AllSound(hash, a + b) <==> AllSound(hash, a) && AllSound(hash, b)
    ensures AllLive(hash, a + b) <==> AllLive(hash, a) && AllLive(hash, b)
  {
    hide Live, Sound;
    assert forall i :: 0 <= i < |a| ==> (a + b)[i] == a[i];
    assert forall i :: 0 <= i < |b| ==> (a + b)[|a| + i] == b[i];
  }

  lemma JoinLast(m: Moment, a: seq<Moment>, b: seq<Moment>)
    ensures Last(m, a + b) == Last(Last(m, a), b)
  {}

  lemma LastIsSound(hash: Buffer -> string, m: Moment, later: seq<Moment>)
    ensures Sound(hash, m) && AllSound(hash, later) ==> Sound(hash, Last(m, later))
    ensures Live(hash, m) && AllLive(hash, later) ==> Live(hash, Last(m, later))
  {
    hide Sound, Live;
  }

  lemma SoundIsLive(hash: Buffer -> string, ms: seq<Moment>)
    requires AllSound(hash, ms)
    ensures AllLive(hash, ms)
  {}

  lemma DropKeeps(hash: Buffer -> string, m: Moment, path: string, f: Faults)
    requires Unreferenced(m.memory, path)
    ensures Live(hash, m) ==> AllLive(hash, DropMoments(m, path, f))
    ensures Unreferenced(m.durable, path) && Sound(hash, m) ==> AllSound(hash, DropMoments(m, path, f))
    ensures var last := Last(m, DropMoments(m, path, f)); last.memory == m.memory && last.durable == m.durable
  {
    hide Consistent, Unreferenced;
    if Live(hash, m) {
      ConsistentWithout(hash, m.memory, m.disk, path);
      if Unreferenced(m.durable, path) && Sound(hash, m) {
        ConsistentWithout(hash, m.durable, m.disk, path);
      }
    }
  }

  lemma WithAndWithout(hash: Buffer -> string, m: Moment, target: string, bytes: Buffer)
    requires Unreferenced(m.memory, target)
    ensures Live(hash, m) ==> Live(hash, m.(disk := m.disk[target := bytes]))
    ensures Unreferenced(m.durable, target) && Sound(hash, m) ==> Sound(hash, m.(disk := m.disk[target := bytes]))
  {
    hide Consistent, Unreferenced;
    if Live(hash, m) {
      ConsistentWith(hash, m.memory, m.disk, target, bytes);
      if Unreferenced(m.durable, target) && Sound(hash, m) {
        ConsistentWith(hash, m.durable, m.disk, target, bytes);
      }
    }
  }

  lemma StoreKeeps(hash: Buffer -> string, m: Moment, target: string, bytes: Buffer, f: Faults)
    requires Unreferenced(m.memory, target)
    ensures var storing := StoreMoments(m, target, bytes, f);
      && (Live(hash, m) ==> AllLive(hash, storing))
      && (Unreferenced(m.durable, target) && Sound(hash, m) ==> AllSound(hash, storing))
      && Last(m, storing).memory == m.memory && Last(m, storing).durable == m.durable
      && (Stores(m, target, f) ==> storing == [m.(disk := m.disk[target := bytes])])
  {
    hide Sound, Live, Unreferenced;
    if f.write.NotWritten? {
      DropKeeps(hash, m, target, f);
    } else if target !in m.disk {
      var written := if f.write.Partial? then f.write.bytes else bytes;
      var stored := m.(disk := m.disk[target := written]);
      WithAndWithout(hash, m, target, written);
      DropKeeps(hash, stored, target, f);
      Join(hash, [stored], if f.write.Written? then [] else DropMoments(stored, target, f));
    }
  }

  /** The index is saved, or not. */
  lemma SaveKeeps(hash: Buffer -> string, m: Moment, index: Index, f: Faults)
    requires Live(hash, m) && Consistent(hash, index, m.disk)
    ensures var saving := SaveMoments(m, index, f);
      && AllSound(hash, saving) && Last(m, saving).disk == m.disk
      && Last(m, saving).memory == (if f.save.Saved? then index else m.memory)
      && Last(m, saving).durable == (if f.save.NotSaved? then m.durable else index)
  {
    hide Consistent;
  }

  /** After a save that threw with the new index in place, removing the new file breaks what was saved. */
  lemma LateThrowBreaks(hash: Buffer -> string, m: Moment, r: Record, f: Faults)
    requires r.key in m.durable && m.durable[r.key] == r && r.path in m.disk && r.path !in f.stuck
    ensures var dropping := DropMoments(m, r.path, f);
      |dropping| == 1 && !Consistent(hash, dropping[0].durable, dropping[0].disk) && !AllSound(hash, dropping)
  {
    DanglingRecord(hash, m.durable, m.disk, r.key);
    hide Consistent;
    assert !Sound(hash, DropMoments(m, r.path, f)[0]);
  }

  lemma CommitKeeps(hash: Buffer -> string, m: Moment, r: Record, f: Faults)
    requires Live(hash, m) && Backed(hash, r, m.disk) && Unreferenced(m.memory, r.path)
    ensures var committing := CommitMoments(m, r, f);
      && AllLive(hash, committing)
      && (f.save.Saved? ==> AllSound(hash, committing))
      && (Unreferenced(m.durable, r.path) && Sound(hash, m) ==>
        (AllSound(hash, committing) <==> !(f.save.SavedButThrew? && r.path !in f.stuck)))
      && Last(m, committing).memory == (if f.save.Saved? then m.memory[r.key := r] else m.memory)
      && Last(m, committing).durable == (if f.save.NotSaved? then m.durable else m.memory[r.key := r])
  {
    var index := m.memory[r.key := r];
    var saving := SaveMoments(m, index, f);
    ConsistentPut(hash, m.memory, m.disk, r);
    if r.key in m.memory && m.memory[r.key].path != r.path {
      ReplacedIsUnreferenced(hash, m.memory, m.disk, r);
    }
    SaveKeeps(hash, m, index, f);
    SoundIsLive(hash, saving);
    LastIsSound(hash, m, saving);
    hide Sound, Live, Unreferenced, AllSound, AllLive, Consistent;
    var after := Last(m, saving);
    JoinLast(m, saving, CommitMoments(m, r, f)[|saving|..]);
    Join(hash, saving, CommitMoments(m, r, f)[|saving|..]);
    assert CommitMoments(m, r, f) == saving + CommitMoments(m, r, f)[|saving|..];
    NoMoments(hash);
    if !f.save.Saved? {
      DropKeeps(hash, after, r.path, f);
      if f.save.SavedButThrew? && r.path !in f.stuck {
        LateThrowBreaks(hash, after, r, f);
      }
    } else if r.key in m.memory && m.memory[r.key].path != r.path {
      DropKeeps(hash, after, m.memory[r.key].path, f);
    }
  }

  lemma NoMoments(hash: Buffer -> string)
    ensures AllSound(hash, []) && AllLive(hash, [])
  {}

  /** The save reported failure with the new index in place, and the new file went. */
  predicate LateThrow(m: Moment, path: string, f: Faults) {
    Stores(m, path, f) && f.save.SavedButThrew? && path !in f.stuck
  }

  /** Storing a file: sound at every moment unless a save throws late, and live at every moment even then. */
  lemma PutSound(hash: Buffer -> string, m: Moment, r: Record, bytes: Buffer, f: Faults)
    requires Live(hash, m) && Unreferenced(m.memory, r.path) && Describes(hash, r, bytes)
    ensures var putting := PutMoments(m, r, bytes, f);
      && AllLive(hash, putting)
      && (Puts(m, r.path, f) ==> Sound(hash, Last(m, putting)))
      && (Unreferenced(m.durable, r.path) && Sound(hash, m) ==> (AllSound(hash, putting) <==> !LateThrow(m, r.path, f)))
      && Last(m, putting).memory == (if Puts(m, r.path, f) then m.memory[r.key := r] else m.memory)
      && Last(m, putting).durable ==
        (if Stores(m, r.path, f) && !f.save.NotSaved? then m.memory[r.key := r] else m.durable)
  {
    var storing := StoreMoments(m, r.path, bytes, f);
    StoreKeeps(hash, m, r.path, bytes, f);
    hide Consistent, Unreferenced, StoreMoments, CommitMoments, AllSound, AllLive;
    LastIsSound(hash, m, storing);
    if Stores(m, r.path, f) {
      var stored := Last(m, storing);
      var committing := CommitMoments(stored, r, f);
      CommitKeeps(hash, stored, r, f);
      LastIsSound(hash, stored, committing);
      Join(hash, storing, committing);
      JoinLast(m, storing, committing);
      SavedIsMoment(stored, r, f);
    }
  }

  lemma SavedIsMoment(m: Moment, r: Record, f: Faults)
    ensures f.save.Saved? ==> CommitMoments(m, r, f) != []
  {}

  /** The source that is removed after an import belongs to a stored record. */
  ghost predicate TakesStored(hash: Buffer -> string, m: Moment, i: Importing, f: Faults)
    requires i.source in m.disk
  {
    var index := m.memory[i.key := ImportedRecord(hash, i, m.disk[i.source])];
    Puts(m, i.target, f) && RemovesSource(index, i) && !Unreferenced(index, i.source) && i.source !in f.stuck
  }

  lemma ImportSound(hash: Buffer -> string, m: Moment, i: Importing, f: Faults)
    requires Live(hash, m) && Unreferenced(m.memory, i.target) && i.source in m.disk && !i.image.Rejected?
    ensures var importing := ImportMoments(hash, m, i, f);
      && (!TakesStored(hash, m, i, f) ==> AllLive(hash, importing))
      && (!TakesStored(hash, m, i, f) && Puts(m, i.target, f) ==> Sound(hash, Last(m, importing)))
      && (Unreferenced(m.durable, i.target) && Sound(hash, m) ==>
        (AllSound(hash, importing) <==> !LateThrow(m, i.target, f) && !TakesStored(hash, m, i, f)))
  {
    hide *;
    var bytes := m.disk[i.source];
    var r := ImportedRecord(hash, i, bytes);
    var putting := PutMoments(m, r, bytes, f);
    ImportedIs(hash, m, i, f);
    PutSound(hash, m, r, bytes, f);
    LastIsSound(hash, m, putting);
    var stored := Last(m, putting);
    if Puts(m, i.target, f) && RemovesSource(stored.memory, i) {
      var dropping := DropMoments(stored, i.source, f);
      DropSource(hash, stored, i.source, f);
      Join(hash, putting, dropping);
      JoinLast(m, putting, dropping);
      LastIsSound(hash, stored, dropping);
    }
  }

  lemma ImportedIs(hash: Buffer -> string, m: Moment, i: Importing, f: Faults)
    requires i.source in m.disk && !i.image.Rejected?
    ensures var bytes := m.disk[i.source];
      var r := ImportedRecord(hash, i, bytes);
      var putting := PutMoments(m, r, bytes, f);
      && r.key == i.key && r.path == i.target && Describes(hash, r, bytes)
      && ImportMoments(hash, m, i, f) ==
        (if Puts(m, i.target, f)
          && RemovesSource(Last(m, putting).memory, i) then putting + DropMoments(Last(m, putting), i.source, f)
            else putting)
      && (TakesStored(hash, m, i, f) <==>
        Puts(m, i.target, f) && RemovesSource(m.memory[i.key := r], i) && !Unreferenced(m.memory[i.key := r], i.source)
          && i.source !in f.stuck)
      && (Puts(m, i.target, f) ==> Stores(m, i.target, f) && f.save.Saved? && !LateThrow(m, i.target, f))
  {
    hide Unreferenced, PutMoments, DropMoments, RemovesSource, Last;
    assert forall putting: seq<Moment> :: putting + [] == putting;
  }

  lemma DropSource(hash: Buffer -> string, m: Moment, source: string, f: Faults)
    requires Sound(hash, m) && m.memory == m.durable
    ensures var dropping := DropMoments(m, source, f);
      if Unreferenced(m.memory, source) || source in f.stuck then AllSound(hash, dropping) && AllLive(hash, dropping)
      else !AllSound(hash, dropping)
  {
    hide Consistent, Unreferenced;
    if Unreferenced(m.memory, source) {
      DropKeeps(hash, m, source, f);
    } else if source !in f.stuck {
      DropBreaks(hash, m, source, f);
    }
  }

  /** Removing the file of a record: there is one to remove. */
  lemma DropBreaks(hash: Buffer -> string, m: Moment, path: string, f: Faults)
    requires Live(hash, m) && !Unreferenced(m.memory, path) && path !in f.stuck
    ensures var dropping := DropMoments(m, path, f);
      |dropping| == 1 && !Live(hash, dropping[0]) && !AllSound(hash, dropping)
  {
    var k :| k in m.memory && m.memory[k].path == path;
    assert Backed(hash, m.memory[k], m.disk);
    DanglingRecord(hash, m.memory, m.disk, k);
    hide Consistent;
    assert !Sound(hash, DropMoments(m, path, f)[0]);
  }

  lemma RemoveSound(hash: Buffer -> string, m: Moment, id: string, f: Faults)
    requires Live(hash, m)
    ensures AllSound(hash, RemoveMoments(m, id, f))
    ensures FirstKey(m.memory, id) in m.memory && f.save.Saved? ==>
      RemoveMoments(m, id, f) != []
        && Last(m, RemoveMoments(m, id, f)).memory == m.memory - {FileKey(id), ArtifactKey(id)}
  {
    var k := FirstKey(m.memory, id);
    if k in m.memory {
      var keys := {FileKey(id), ArtifactKey(id)};
      var saving := SaveMoments(m, m.memory - keys, f);
      ConsistentLess(hash, m.memory, m.disk, keys);
      RemovedIsUnreferenced(hash, m.memory, m.disk, keys, k);
      SaveKeeps(hash, m, m.memory - keys, f);
      LastIsSound(hash, m, saving);
      NoMoments(hash);
      hide Sound, Live, Unreferenced, AllSound, AllLive, Consistent;
      SavedLast(hash, m, m.memory - keys, f);
      if f.save.Saved? {
        DropKeeps(hash, Last(m, saving), m.memory[k].path, f);
      }
      Join(hash, saving, DropMoments(Last(m, saving), m.memory[k].path, f));
      Join(hash, saving, []);
      JoinLast(m, saving, DropMoments(Last(m, saving), m.memory[k].path, f));
    }
  }

  lemma SavedLast(hash: Buffer -> string, m: Moment, index: Index, f: Faults)
    ensures f.save.Saved? ==>
      SaveMoments(m, index, f) != [] && Last(m, SaveMoments(m, index, f)) == Moment(index, index, m.disk)
  {}

  lemma {:induction false} DropAllKeeps(hash: Buffer -> string, m: Moment, removed: seq<Record>, f: Faults)
    requires Sound(hash, m) && forall r :: r in removed ==> NewName(m, r.path)
    ensures AllSound(hash, DropAllMoments(m, removed, f))
    ensures var last := Last(m, DropAllMoments(m, removed, f)); last.memory == m.memory && last.durable == m.durable
    decreases |removed|
  {
    hide Sound, Live, Unreferenced, AllSound, AllLive;
    NoMoments(hash);
    if removed != [] {
      var dropping := DropMoments(m, removed[0].path, f);
      DropKeeps(hash, m, removed[0].path, f);
      LastIsSound(hash, m, dropping);
      DropAllKeeps(hash, Last(m, dropping), removed[1..], f);
      Join(hash, dropping, DropAllMoments(Last(m, dropping), removed[1..], f));
      JoinLast(m, dropping, DropAllMoments(Last(m, dropping), removed[1..], f));
    }
  }

  /** The records are those that the index has under their keys. */
  ghost predicate Listed(index: Index, removed: seq<Record>) {
    forall r :: r in removed ==> r.key in index && index[r.key] == r
  }

  lemma PruneSound(hash: Buffer -> string, m: Moment, removed: seq<Record>, f: Faults)
    requires Live(hash, m) && Listed(m.memory, removed)
    ensures AllSound(hash, PruneMoments(m, removed, f))
    ensures f.save.Saved? && removed != [] ==>
      PruneMoments(m, removed, f) != [] && Last(m, PruneMoments(m, removed, f)).memory == m.memory - KeysOf(removed)
  {
    NoMoments(hash);
    if removed != [] {
      var index := m.memory - KeysOf(removed);
      var saving := SaveMoments(m, index, f);
      ConsistentLess(hash, m.memory, m.disk, KeysOf(removed));
      forall r | r in removed
        ensures Unreferenced(index, r.path)
      {
        assert r.key in KeysOf(removed);
        RemovedIsUnreferenced(hash, m.memory, m.disk, KeysOf(removed), r.key);
      }
      hide Sound, Live, Unreferenced, AllSound, AllLive, Consistent, KeysOf;
      SaveKeeps(hash, m, index, f);
      SavedLast(hash, m, index, f);
      LastIsSound(hash, m, saving);
      Join(hash, saving, []);
      if f.save.Saved? {
        DropAllKeeps(hash, Last(m, saving), removed, f);
        Join(hash, saving, DropAllMoments(Last(m, saving), removed, f));
        JoinLast(m, saving, DropAllMoments(Last(m, saving), removed, f));
      }
    }
  }

  // ------------------------------------------------------------ bytes

  /** The records of the index, apart from those of `except`, still have the bytes they had. */
  ghost predicate Keeps(index: Index, a: Contents, b: Contents, except: set<Key>) {
    forall k :: k in index && k !in except && index[k].path in a ==>
      index[k].path in b && b[index[k].path] == a[index[k].path]
  }

  ghost predicate SameBut(a: Contents, b: Contents, path: string) {
    forall p :: p != path ==> (p in b <==> p in a) && (p in b ==> b[p] == a[p])
  }

  lemma StoreLeaves(m: Moment, target: string, bytes: Buffer, f: Faults)
    ensures SameBut(m.disk, Last(m, StoreMoments(m, target, bytes, f)).disk, target)
    ensures target in m.disk && !f.write.NotWritten? ==> StoreMoments(m, target, bytes, f) == []
    ensures target in m.disk && f.write.NotWritten? && target !in f.stuck ==>
      target !in Last(m, StoreMoments(m, target, bytes, f)).disk
  {}

  lemma DropLeaves(m: Moment, path: string, f: Faults)
    ensures SameBut(m.disk, Last(m, DropMoments(m, path, f)).disk, path)
    ensures path !in f.stuck ==> path !in Last(m, DropMoments(m, path, f)).disk
  {}

  lemma CommitLeaves(m: Moment, r: Record, f: Faults)
    ensures var after := Last(m, CommitMoments(m, r, f));
      if !f.save.Saved? then SameBut(m.disk, after.disk, r.path)
      else if r.key in m.memory && m.memory[r.key].path != r.path then
        SameBut(m.disk, after.disk, m.memory[r.key].path)
          && (m.memory[r.key].path !in f.stuck ==> m.memory[r.key].path !in after.disk)
      else after.disk == m.disk
  {
    var saving := SaveMoments(m, m.memory[r.key := r], f);
    var after := Last(m, saving);
    hide SameBut, DropMoments;
    DropLeaves(after, r.path, f);
    JoinLast(m, saving, DropMoments(after, r.path, f));
    if r.key in m.memory {
      DropLeaves(after, m.memory[r.key].path, f);
      JoinLast(m, saving, DropMoments(after, m.memory[r.key].path, f));
    }
    JoinLast(m, saving, []);
  }

  /** A stored record has its bytes, the replaced ones are gone, and every other record keeps its own. */
  lemma PutLeaves(hash: Buffer -> string, m: Moment, r: Record, bytes: Buffer, f: Faults)
    requires Live(hash, m) && Unreferenced(m.memory, r.path)
    ensures var after := Last(m, PutMoments(m, r, bytes, f));
      && Keeps(m.memory, m.disk, after.disk, if Puts(m, r.path, f) then {r.key} else {})
      && (Puts(m, r.path, f) ==> r.path in after.disk && after.disk[r.path] == bytes)
      && (Puts(m, r.path, f) && r.key in m.memory && m.memory[r.key].path !in f.stuck ==>
        m.memory[r.key].path !in after.disk)
  {
    var storing := StoreMoments(m, r.path, bytes, f);
    StoreLeaves(m, r.path, bytes, f);
    if Stores(m, r.path, f) {
      var stored := m.(disk := m.disk[r.path := bytes]);
      assert storing == [stored];
      CommitLeaves(stored, r, f);
      JoinLast(m, storing, CommitMoments(stored, r, f));
      hide CommitMoments, StoreMoments;
    }
  }

  /** The file that a reader of the id gets: that of the upload, and without one that of the artifact. */
  ghost predicate Serves(index: Index, id: string, path: string) {
    if FileKey(id) in index then index[FileKey(id)].path == path
    else ArtifactKey(id) in index && index[ArtifactKey(id)].path == path
  }

  /** An import that succeeds takes its source away exactly when that is the file it replaces, or when it was asked to
      and does not find the source to be an image that is served under the id. */
  lemma ImportTakesSource(hash: Buffer -> string, m: Moment, i: Importing, f: Faults)
    requires i.source in m.disk && !i.image.Rejected? && Puts(m, i.target, f) && i.source !in f.stuck
    ensures var after := Last(m, ImportMoments(hash, m, i, f));
      i.source !in after.disk <==>
        (i.key in m.memory && m.memory[i.key].path == i.source)
          || (i.removeSource && (i.image.NotImage? || !Serves(after.memory, i.key.id, i.source)))
  {
    var bytes := m.disk[i.source];
    var r := ImportedRecord(hash, i, bytes);
    var putting := PutMoments(m, r, bytes, f);
    var stored := Last(m, putting);
    PutPlaces(m, r, bytes, f);
    ImportedIs(hash, m, i, f);
    SourceGoes(stored.memory, i);
    hide PutMoments, ImportMoments, RemovesSource, Serves;
    JoinLast(m, putting, DropMoments(stored, i.source, f));
  }

  lemma PutPlaces(m: Moment, r: Record, bytes: Buffer, f: Faults)
    requires Puts(m, r.path, f)
    ensures var after := Last(m, PutMoments(m, r, bytes, f));
      && after.memory == m.memory[r.key := r]
      && forall p :: p in m.disk && p !in f.stuck ==>
        (p in after.disk <==> !(r.key in m.memory && m.memory[r.key].path == p))
  {
    var stored := m.(disk := m.disk[r.path := bytes]);
    assert StoreMoments(m, r.path, bytes, f) == [stored];
    CommitLeaves(stored, r, f);
    JoinLast(m, [stored], CommitMoments(stored, r, f));
    CommitMemory(stored, r, f);
    hide CommitMoments;
  }

  lemma CommitMemory(m: Moment, r: Record, f: Faults)
    requires f.save.Saved?
    ensures Last(m, CommitMoments(m, r, f)).memory == m.memory[r.key := r]
  {
    var saving := SaveMoments(m, m.memory[r.key := r], f);
    JoinLast(m, saving, []);
    JoinLast(m, saving, DropMoments(Last(m, saving), r.path, f));
    if r.key in m.memory {
      JoinLast(m, saving, DropMoments(Last(m, saving), m.memory[r.key].path, f));
    }
  }

  lemma SourceGoes(index: Index, i: Importing)
    requires i.key in index && i.source != i.target
    ensures RemovesSource(index, i) <==> i.removeSource && (i.image.NotImage? || !Serves(index, i.key.id, i.source))
  {}

  /** Removing an id takes the bytes of its first entry only. */
  lemma RemoveLeaves(hash: Buffer -> string, m: Moment, id: string, f: Faults)
    requires Live(hash, m)
    ensures var k, after := FirstKey(m.memory, id), Last(m, RemoveMoments(m, id, f));
      && Keeps(m.memory, m.disk, after.disk, if f.save.Saved? then {k} else {})
      && (k in m.memory && f.save.Saved? && m.memory[k].path !in f.stuck ==> m.memory[k].path !in after.disk)
  {
    var k := FirstKey(m.memory, id);
    if k in m.memory {
      var saving := SaveMoments(m, m.memory - {FileKey(id), ArtifactKey(id)}, f);
      var after := Last(m, saving);
      DropLeaves(after, m.memory[k].path, f);
      JoinLast(m, saving, DropMoments(after, m.memory[k].path, f));
      hide DropMoments;
    }
  }

  /** A removal that is saved, and whose file can be removed, leaves bytes behind that no record lists exactly when the
      id is both an upload and an artifact. */
  lemma RemoveOrphans(hash: Buffer -> string, m: Moment, id: string, f: Faults)
    requires Live(hash, m) && FirstKey(m.memory, id) in m.memory && f.save.Saved?
    requires m.memory[FirstKey(m.memory, id)].path !in f.stuck
    ensures var after := Last(m, RemoveMoments(m, id, f));
      (exists k :: k in {FileKey(id), ArtifactKey(id)} && k in m.memory && m.memory[k].path in after.disk) <==>
      FileKey(id) in m.memory && ArtifactKey(id) in m.memory
  {
    RemoveLeaves(hash, m, id, f);
    hide RemoveMoments;
    var after := Last(m, RemoveMoments(m, id, f));
    var second := ArtifactKey(id);
    if FileKey(id) in m.memory && second in m.memory {
      assert Backed(hash, m.memory[second], m.disk);
      assert second in {FileKey(id), ArtifactKey(id)} && m.memory[second].path in after.disk;
    }
  }

  /** The files that are dropped are all that may go. */
  lemma {:induction false} DropAllLeaves(m: Moment, removed: seq<Record>, f: Faults)
    ensures var after := Last(m, DropAllMoments(m, removed, f));
      && (forall p :: p in after.disk ==> p in m.disk && after.disk[p] == m.disk[p])
      && (forall p :: p in m.disk && p !in after.disk ==> exists r :: r in removed && r.path == p)
      && (forall r :: r in removed && r.path !in f.stuck ==> r.path !in after.disk)
    decreases |removed|
  {
    if removed != [] {
      var dropping := DropMoments(m, removed[0].path, f);
      var next := Last(m, dropping);
      assert forall r :: r in removed <==> r == removed[0] || r in removed[1..];
      DropAllLeaves(next, removed[1..], f);
      JoinLast(m, dropping, DropAllMoments(next, removed[1..], f));
      assert forall p :: p in next.disk ==> p in m.disk && next.disk[p] == m.disk[p];
      assert forall p :: p in m.disk && p !in next.disk ==> p == removed[0].path;
      assert removed[0].path !in f.stuck ==> removed[0].path !in next.disk;
      hide DropMoments, Last;
    }
  }

  lemma PruneLeaves(hash: Buffer -> string, m: Moment, removed: seq<Record>, f: Faults)
    requires Live(hash, m) && Listed(m.memory, removed)
    ensures var after := Last(m, PruneMoments(m, removed, f));
      && Keeps(m.memory, m.disk, after.disk, if f.save.Saved? then KeysOf(removed) else {})
      && (f.save.Saved? ==> forall r :: r in removed && r.path !in f.stuck ==> r.path !in after.disk)
  {
    if removed != [] {
      var saving := SaveMoments(m, m.memory - KeysOf(removed), f);
      var after := Last(m, saving);
      assert after.disk == m.disk;
      if f.save.Saved? {
        DropAllLeaves(after, removed, f);
        JoinLast(m, saving, DropAllMoments(after, removed, f));
        hide DropAllMoments, SaveMoments;
        forall k | k in m.memory && k !in KeysOf(removed)
          ensures !(exists r :: r in removed && r.path == m.memory[k].path)
        {
          forall r | r in removed
            ensures r.path != m.memory[k].path
          {
            assert r.key in KeysOf(removed);
          }
        }
      }
    }
  }

  // ------------------------------------------------------------ runs, with crashes

  datatype Op =
    | Put(record: Record, bytes: Buffer)
    | Import(importing: Importing)
    | Remove(id: string)
    | Prune(keepIds: set<string>, maxCount: Option<nat>, maxBytes: Option<nat>, listed: seq<Record>)

  function OpMoments(hash: Buffer -> string, m: Moment, op: Op, f: Faults): seq<Moment> {
    match op
    case Put(r, bytes) => PutMoments(m, r, bytes, f)
    case Import(i) => ImportMoments(hash, m, i, f)
    case Remove(id) => RemoveMoments(m, id, f)
    case Prune(_, maxCount, maxBytes, listed) => PruneMoments(m, Pruned(listed, 0, 0, maxCount, maxBytes), f)
  }

  /** What the store itself sees to: names are new, records describe their bytes, and pruning goes by age. */
  ghost predicate Possible(hash: Buffer -> string, m: Moment, op: Op) {
    match op
    case Put(r, bytes) => Describes(hash, r, bytes) && NewName(m, r.path)
    case Import(i) => NewName(m, i.target)
    case Remove(_) => true
    case Prune(keepIds, _, _, listed) => Lists(m.memory, keepIds, listed)
  }

  /** The two ways in which an operation breaks the store. */
  ghost predicate Breaks(hash: Buffer -> string, m: Moment, op: Op, f: Faults) {
    match op
    case Put(r, _) => LateThrow(m, r.path, f)
    case Import(i) => i.source in m.disk && !i.image.Rejected?
      && (LateThrow(m, i.target, f) || TakesStored(hash, m, i, f))
    case _ => false
  }

  /** Sound but for a breaking last moment. */
  ghost predicate SoundUnless(hash: Buffer -> string, moments: seq<Moment>, breaks: bool) {
    && (AllSound(hash, moments) <==> !breaks)
    && (moments != [] ==> AllSound(hash, moments[..|moments| - 1]))
  }

  lemma SoundThroughout(hash: Buffer -> string, moments: seq<Moment>)
    requires AllSound(hash, moments)
    ensures SoundUnless(hash, moments, false)
  {
    hide Sound;
  }

  /** An operation is sound at every moment exactly when it does not break the store; if it does, with its last step. */
  lemma OpSound(hash: Buffer -> string, m: Moment, op: Op, f: Faults)
    requires Sound(hash, m) && Possible(hash, m, op)
    ensures var moments := OpMoments(hash, m, op, f);
      && (AllSound(hash, moments) <==> !Breaks(hash, m, op, f))
      && (moments != [] ==> AllSound(hash, moments[..|moments| - 1]))
  {
    hide Consistent, Sound, Live, Unreferenced, AllSound, AllLive, PutMoments, ImportMoments, RemoveMoments,
        PruneMoments, Lists, TakesStored, Describes, LateThrow, NewName;
    SoundIs(hash, m);
    match op
    case Put(r, bytes) =>
      PutOpSound(hash, m, r, bytes, f);
    case Import(i) =>
      ImportOpSound(hash, m, i, f);
    case Remove(id) =>
      RemoveSound(hash, m, id, f);
      SoundThroughout(hash, RemoveMoments(m, id, f));
    case Prune(keepIds, maxCount, maxBytes, listed) =>
      var removed := Pruned(listed, 0, 0, maxCount, maxBytes);
      RemovedAreListed(m.memory, keepIds, listed, removed, maxCount, maxBytes);
      PruneSound(hash, m, removed, f);
      SoundThroughout(hash, PruneMoments(m, removed, f));
  }

  lemma PutOpSound(hash: Buffer -> string, m: Moment, r: Record, bytes: Buffer, f: Faults)
    requires Sound(hash, m) && NewName(m, r.path) && Describes(hash, r, bytes)
    ensures SoundUnless(hash, PutMoments(m, r, bytes, f), LateThrow(m, r.path, f))
  {
    hide Consistent, Sound, Live, Unreferenced, AllSound, AllLive, PutMoments, Describes, LateThrow;
    SoundIs(hash, m);
    PutSound(hash, m, r, bytes, f);
    LateThrowIsLast(hash, m, r, bytes, f);
    if AllSound(hash, PutMoments(m, r, bytes, f)) {
      SoundThroughout(hash, PutMoments(m, r, bytes, f));
    }
  }

  lemma ImportOpSound(hash: Buffer -> string, m: Moment, i: Importing, f: Faults)
    requires Sound(hash, m) && NewName(m, i.target)
    ensures SoundUnless(hash, ImportMoments(hash, m, i, f),
              i.source in m.disk && !i.image.Rejected? && (LateThrow(m, i.target, f) || TakesStored(hash, m, i, f)))
  {
    hide Consistent, Sound, Live, Unreferenced, AllSound, AllLive, ImportMoments, TakesStored, LateThrow;
    SoundIs(hash, m);
    if i.source in m.disk && !i.image.Rejected? {
      ImportSound(hash, m, i, f);
      ImportBreaksLast(hash, m, i, f);
    } else {
      NothingImported(hash, m, i, f);
      NoMoments(hash);
    }
    if AllSound(hash, ImportMoments(hash, m, i, f)) {
      SoundThroughout(hash, ImportMoments(hash, m, i, f));
    }
  }

  lemma NothingImported(hash: Buffer -> string, m: Moment, i: Importing, f: Faults)
    requires i.source !in m.disk || i.image.Rejected?
    ensures ImportMoments(hash, m, i, f) == []
  {}

  /** Were the new file stuck, a late throw would do no harm: it is the removal that breaks the store. */
  lemma LateThrowIsLast(hash: Buffer -> string, m: Moment, r: Record, bytes: Buffer, f: Faults)
    requires Sound(hash, m) && NewName(m, r.path) && Describes(hash, r, bytes)
    ensures var putting := PutMoments(m, r, bytes, f);
      LateThrow(m, r.path, f) ==> putting != [] && AllSound(hash, putting[..|putting| - 1])
  {
    if LateThrow(m, r.path, f) {
      var kinder := f.(stuck := f.stuck + {r.path});
      var putting := PutMoments(m, r, bytes, f);
      hide Sound, Live, Unreferenced, Consistent, Describes, AllSound;
      PutSound(hash, m, r, bytes, kinder) by {
        SoundIs(hash, m);
      }
      SoundIs(hash, m);
      assert putting[..|putting| - 1] == PutMoments(m, r, bytes, kinder);
    }
  }

  lemma SoundIs(hash: Buffer -> string, m: Moment)
    ensures Sound(hash, m) ==> Live(hash, m)
  {}

  lemma ImportBreaksLast(hash: Buffer -> string, m: Moment, i: Importing, f: Faults)
    requires Sound(hash, m) && NewName(m, i.target) && i.source in m.disk && !i.image.Rejected?
    ensures var importing := ImportMoments(hash, m, i, f);
      LateThrow(m, i.target, f) || TakesStored(hash, m, i, f) ==>
        importing != [] && AllSound(hash, importing[..|importing| - 1])
  {
    hide Sound, Live, Consistent, Unreferenced, PutMoments, AllSound, AllLive, TakesStored;
    var bytes := m.disk[i.source];
    var r := ImportedRecord(hash, i, bytes);
    var putting := PutMoments(m, r, bytes, f);
    ImportedIs(hash, m, i, f);
    SoundIs(hash, m);
    PutSound(hash, m, r, bytes, f);
    LateThrowIsLast(hash, m, r, bytes, f);
    var importing := ImportMoments(hash, m, i, f);
    if TakesStored(hash, m, i, f) {
      var stored := Last(m, putting);
      DropBreaks(hash, stored, i.source, f) by {
        SoundIs(hash, stored);
      }
      assert importing[..|importing| - 1] == putting;
    }
  }

  /** An operation, and how many of its moments pass before the process dies, if it does. */
  datatype Step = Step(op: Op, faults: Faults, crash: Option<nat>)

  /** #init of the next process reads the index file. */
  function Reopened(m: Moment): Moment {
    m.(memory := m.durable)
  }

  function StepMoments(hash: Buffer -> string, m: Moment, s: Step): seq<Moment> {
    var all := OpMoments(hash, m, s.op, s.faults);
    if s.crash.None? then all
    else
      var seen := if s.crash.value < |all| then all[..s.crash.value] else all;
      seen + [Reopened(Last(m, seen))]
  }

  function RunMoments(hash: Buffer -> string, m: Moment, steps: seq<Step>): seq<Moment>
    decreases |steps|
  {
    if steps == [] then []
    else
      var first := StepMoments(hash, m, steps[0]);
      first + RunMoments(hash, Last(m, first), steps[1..])
  }

  /** A process that dies has passed through some of the moments, and the next one starts from what is on disk. */
  lemma CrashReopens(hash: Buffer -> string, m: Moment, s: Step)
    requires s.crash.Some?
    ensures var moments := StepMoments(hash, m, s);
      && moments != [] && moments[..|moments| - 1] <= OpMoments(hash, m, s.op, s.faults)
      && var before, after := Last(m, moments[..|moments| - 1]), Last(m, moments);
      && after.memory == before.durable == after.durable && after.disk == before.disk
  {
    var all := OpMoments(hash, m, s.op, s.faults);
    var seen := if s.crash.value < |all| then all[..s.crash.value] else all;
    assert (seen + [Reopened(Last(m, seen))])[..|seen|] == seen;
    hide OpMoments;
  }

  ghost predicate StepBreaks(hash: Buffer -> string, m: Moment, s: Step) {
    Breaks(hash, m, s.op, s.faults) && (s.crash.None? || s.crash.value >= |OpMoments(hash, m, s.op, s.faults)|)
  }

  ghost predicate CanRun(hash: Buffer -> string, m: Moment, steps: seq<Step>)
    decreases |steps|
  {
    steps != [] ==> Possible(hash, m, steps[0].op) && CanRun(hash, Last(m, StepMoments(hash, m, steps[0])), steps[1..])
  }

  ghost predicate SomeBreaks(hash: Buffer -> string, m: Moment, steps: seq<Step>)
    decreases |steps|
  {
    steps != []
      && (StepBreaks(hash, m, steps[0]) || SomeBreaks(hash, Last(m, StepMoments(hash, m, steps[0])), steps[1..]))
  }

  lemma ReopenedIsSound(hash: Buffer -> string, m: Moment)
    ensures Sound(hash, Reopened(m)) <==> Consistent(hash, m.durable, m.disk)
    ensures Sound(hash, m) ==> Sound(hash, Reopened(m))
  {}

  lemma StepSound(hash: Buffer -> string, m: Moment, s: Step)
    requires Sound(hash, m) && Possible(hash, m, s.op)
    ensures AllSound(hash, StepMoments(hash, m, s)) <==> !StepBreaks(hash, m, s)
  {
    hide Sound, Possible, Breaks, OpMoments, Last, AllSound, AllLive;
    OpSound(hash, m, s.op, s.faults);
    var all := OpMoments(hash, m, s.op, s.faults);
    if s.crash.Some? {
      var seen := if s.crash.value < |all| then all[..s.crash.value] else all;
      if s.crash.value < |all| {
        EarlierIsSound(hash, all, s.crash.value);
      }
      LastIsSound(hash, m, seen);
      ReopenedIsSound(hash, Last(m, seen));
      JustOne(hash, Reopened(Last(m, seen)));
      Join(hash, seen, [Reopened(Last(m, seen))]);
    }
  }

  lemma EarlierIsSound(hash: Buffer -> string, ms: seq<Moment>, n: nat)
    requires n < |ms| && AllSound(hash, ms[..|ms| - 1])
    ensures AllSound(hash, ms[..n])
  {
    hide Sound;
    assert ms[..|ms| - 1][..n] == ms[..n];
  }

  lemma JustOne(hash: Buffer -> string, m: Moment)
    ensures AllSound(hash, [m]) <==> Sound(hash, m)
  {
    hide Sound;
    assert [m][0] == m;
  }

  /** Crash consistency of every run from a sound store, with any writes, saves and removals failing and the process
      dying at any moment: the store is sound throughout exactly when no step breaks it. */
  lemma {:induction false} RunIsSound(hash: Buffer -> string, m: Moment, steps: seq<Step>)
    requires Sound(hash, m) && CanRun(hash, m, steps)
    ensures AllSound(hash, RunMoments(hash, m, steps)) <==> !SomeBreaks(hash, m, steps)
    decreases |steps|
  {
    hide Sound, Possible, StepBreaks, StepMoments, AllSound, Last;
    if steps == [] {
      NoMoments(hash);
    } else {
      var first := StepMoments(hash, m, steps[0]);
      StepSound(hash, m, steps[0]);
      LastIsSound(hash, m, first);
      Join(hash, first, RunMoments(hash, Last(m, first), steps[1..]));
      if AllSound(hash, first) {
        RunIsSound(hash, Last(m, first), steps[1..]);
      }
    }
  }

  // ------------------------------------------------------------ saves that throw late

  /** No import is told to remove a stored file, and no save throws late unless it may. */
  ghost predicate Allowed(hash: Buffer -> string, lateThrows: bool, m: Moment, steps: seq<Step>)
    decreases |steps|
  {
    steps != [] ==>
      && Possible(hash, m, steps[0].op)
      && (steps[0].op.Import? && steps[0].op.importing.removeSource ==>
        Unreferenced(m.memory, steps[0].op.importing.source))
      && (!lateThrows ==> !steps[0].faults.save.SavedButThrew?)
      && Allowed(hash, lateThrows, Last(m, StepMoments(hash, m, steps[0])), steps[1..])
  }

  lemma {:induction false} AllowedIsSound(hash: Buffer -> string, m: Moment, steps: seq<Step>)
    requires Allowed(hash, false, m, steps)
    ensures CanRun(hash, m, steps) && !SomeBreaks(hash, m, steps)
    decreases |steps|
  {
    if steps != [] {
      hide StepMoments, OpMoments;
      AllowedIsSound(hash, Last(m, StepMoments(hash, m, steps[0])), steps[1..]);
    }
  }

  function Empty(disk: Contents): Moment {
    Moment(map[], map[], disk)
  }

  /** In all runs of all new stores, sound at every moment: exactly when saves cannot throw late. */
  lemma SoundExactlyWithoutLateThrows(hash: Buffer -> string, lateThrows: bool)
    ensures !lateThrows <==>
      forall disk, steps :: Allowed(hash, lateThrows, Empty(disk), steps) ==>
        AllSound(hash, RunMoments(hash, Empty(disk), steps))
  {
    if lateThrows {
      LateThrowBreaksARun(hash);
    } else {
      forall disk, steps | Allowed(hash, false, Empty(disk), steps)
        ensures AllSound(hash, RunMoments(hash, Empty(disk), steps))
      {
        AllowedIsSound(hash, Empty(disk), steps);
        RunIsSound(hash, Empty(disk), steps);
      }
    }
  }

  /** The run: the first file of a new store is stored, and the save of the index throws late. */
  lemma LateThrowBreaksARun(hash: Buffer -> string)
    ensures exists disk, steps ::
      Allowed(hash, true, Empty(disk), steps) && !AllSound(hash, RunMoments(hash, Empty(disk), steps))
  {
    var r := Record(FileKey("f"), "p", 0, hash([]), 0, "");
    var m: Moment := Empty(map[]);
    var step := Step(Put(r, []), Faults(Written, SavedButThrew, {}), None);
    assert [step][1..] == [];
    assert Allowed(hash, true, m, [step]);
    assert LateThrow(m, r.path, step.faults);
    hide OpMoments;
    RunIsSound(hash, m, [step]);
    assert SomeBreaks(hash, m, [step]);
    assert !AllSound(hash, RunMoments(hash, Empty(map[]), [step]));
  }

  // ------------------------------------------------------------ afterwards

  /** After a late throw the running process goes on, but one that starts now finds a record without its bytes. */
  lemma LateThrowLosesTheRestart(hash: Buffer -> string, m: Moment, r: Record, bytes: Buffer, f: Faults)
    requires Live(hash, m) && Unreferenced(m.memory, r.path) && Describes(hash, r, bytes) && LateThrow(m, r.path, f)
    ensures var after := Last(m, PutMoments(m, r, bytes, f)); Live(hash, after) && !Live(hash, Reopened(after))
  {
    PutSound(hash, m, r, bytes, f);
    LastIsSound(hash, m, PutMoments(m, r, bytes, f));
    var stored := m.(disk := m.disk[r.path := bytes]);
    var saved := stored.(durable := m.memory[r.key := r]);
    LateThrowBreaks(hash, saved, r, f);
    hide Consistent, Unreferenced;
    assert PutMoments(m, r, bytes, f) == [stored, saved] + DropMoments(saved, r.path, f);
  }

  /** Whether an operation gets to save the index, and the save succeeds. */
  predicate SavesIndex(m: Moment, op: Op, f: Faults) {
    match op
    case Put(r, _) => Puts(m, r.path, f)
    case Import(i) => i.source in m.disk && !i.image.Rejected? && Puts(m, i.target, f)
    case Remove(id) => FirstKey(m.memory, id) in m.memory && f.save.Saved?
    case Prune(_, maxCount, maxBytes, listed) => Pruned(listed, 0, 0, maxCount, maxBytes) != [] && f.save.Saved?
  }

  /** With an index file in any state, an operation that removes no stored source leaves a live store live at every
      moment, and the next save makes it sound again. */
  lemma NextSaveRepairs(hash: Buffer -> string, m: Moment, op: Op, f: Faults)
    requires Live(hash, m) && Possible(hash, m, op)
    requires op.Import? && op.importing.source in m.disk ==> !TakesStored(hash, m, op.importing, f)
    ensures AllLive(hash, OpMoments(hash, m, op, f))
    ensures SavesIndex(m, op, f) ==> Sound(hash, Last(m, OpMoments(hash, m, op, f)))
  {
    hide Consistent, Sound, Live, Unreferenced, AllSound, AllLive, PutMoments, ImportMoments, RemoveMoments,
        PruneMoments, Lists, TakesStored, Describes, Last;
    NoMoments(hash);
    match op
    case Put(r, bytes) =>
      PutSound(hash, m, r, bytes, f);
    case Import(i) =>
      if i.source in m.disk && !i.image.Rejected? {
        ImportSound(hash, m, i, f);
      } else {
        NothingImported(hash, m, i, f);
      }
    case Remove(id) =>
      RemoveSound(hash, m, id, f);
      SoundIsLive(hash, RemoveMoments(m, id, f));
      LastOfSound(hash, m, RemoveMoments(m, id, f));
    case Prune(keepIds, maxCount, maxBytes, listed) =>
      var removed := Pruned(listed, 0, 0, maxCount, maxBytes);
      RemovedAreListed(m.memory, keepIds, listed, removed, maxCount, maxBytes);
      PruneSound(hash, m, removed, f);
      SoundIsLive(hash, PruneMoments(m, removed, f));
      LastOfSound(hash, m, PruneMoments(m, removed, f));
  }

  lemma LastOfSound(hash: Buffer -> string, m: Moment, later: seq<Moment>)
    requires AllSound(hash, later)
    ensures later != [] ==> Sound(hash, Last(m, later))
  {
    hide Sound;
  }

  // ------------------------------------------------------------ what the operations promise

  lemma PutPromise(hash: Buffer -> string, m: Moment, r: Record, bytes: Buffer, f: Faults)
    ensures var putting := PutMoments(m, r, bytes, f);
      var after := Last(m, putting);
      Live(hash, m) && Unreferenced(m.memory, r.path) ==>
        && Keeps(m.memory, m.disk, after.disk, if Puts(m, r.path, f) then {r.key} else {})
        && (Puts(m, r.path, f) ==> r.path in after.disk && after.disk[r.path] == bytes)
        && (Describes(hash, r, bytes) ==> Live(hash, after) && (Puts(m, r.path, f) ==> Sound(hash, after)))
    ensures Sound(hash, m) && NewName(m, r.path) && Describes(hash, r, bytes) ==>
      (AllSound(hash, PutMoments(m, r, bytes, f)) <==> !LateThrow(m, r.path, f))
  {
    hide Consistent, Unreferenced, PutMoments, AllSound, AllLive, Describes, Keeps;
    if Live(hash, m) && Unreferenced(m.memory, r.path) {
      PutLeaves(hash, m, r, bytes, f);
      if Describes(hash, r, bytes) {
        PutSound(hash, m, r, bytes, f);
        LastIsSound(hash, m, PutMoments(m, r, bytes, f));
      }
    }
  }

  lemma PutIs(m: Moment, r: Record, bytes: Buffer, f: Faults)
    ensures var storing := StoreMoments(m, r.path, bytes, f);
      && PutMoments(m, r, bytes, f) ==
        (if Stores(m, r.path, f) then storing + CommitMoments(Last(m, storing), r, f) else storing)
      && Last(m, storing).memory == m.memory
    ensures Puts(m, r.path, f) <==> Stores(m, r.path, f) && f.save.Saved?
  {
    hide CommitMoments;
  }

  lemma NewPlace(m: Moment, target: string, f: Faults)
    ensures Puts(m, target, f) ==> target !in m.disk
  {}

  lemma SameElsewhere(a: Contents, b: Contents, path: string, other: string)
    requires SameBut(a, b, path) && other != path && other in a
    ensures other in b && b[other] == a[other]
  {}

  lemma ImportPromise(hash: Buffer -> string, m: Moment, i: Importing, f: Faults)
    ensures Sound(hash, m) && NewName(m, i.target) ==>
      (AllSound(hash, ImportMoments(hash, m, i, f)) <==> !Breaks(hash, m, Op.Import(i), f))
    ensures Live(hash, m) && Unreferenced(m.memory, i.target) && i.source in m.disk && !i.image.Rejected? ==>
      Puts(m, i.target, f) ==>
      var after := Last(m, ImportMoments(hash, m, i, f));
        i.target in after.disk && after.disk[i.target] == m.disk[i.source]
  {
    if Sound(hash, m) && NewName(m, i.target) {
      OpSound(hash, m, Op.Import(i), f);
    }
    hide *;
    if Live(hash, m) && Unreferenced(m.memory, i.target) && i.source in m.disk && !i.image.Rejected?
      && Puts(m, i.target, f) {
      ImportedIs(hash, m, i, f);
      var bytes := m.disk[i.source];
      var r := ImportedRecord(hash, i, bytes);
      var putting := PutMoments(m, r, bytes, f);
      PutLeaves(hash, m, r, bytes, f);
      DropLeaves(Last(m, putting), i.source, f);
      JoinLast(m, putting, DropMoments(Last(m, putting), i.source, f));
      NewPlace(m, i.target, f);
      SameElsewhere(Last(m, putting).disk, Last(Last(m, putting), DropMoments(Last(m, putting), i.source, f)).disk,
          i.source, i.target);
    }
  }

  lemma RemovePromise(hash: Buffer -> string, m: Moment, id: string, f: Faults)
    requires true
    ensures Live(hash, m) ==>
      var k, after := FirstKey(m.memory, id), Last(m, RemoveMoments(m, id, f));
      && AllSound(hash, RemoveMoments(m, id, f))
      && Keeps(m.memory, m.disk, after.disk, if k in m.memory && f.save.Saved? then {k} else {})
      && (k in m.memory && f.save.Saved? && m.memory[k].path !in f.stuck ==> m.memory[k].path !in after.disk)
  {
    if Live(hash, m) {
      RemoveSound(hash, m, id, f);
      RemoveLeaves(hash, m, id, f);
    }
  }

  /** The kept records are the others. */
  ghost predicate Parted(records: seq<Record>, removed: seq<Record>, kept: seq<Record>) {
    forall r :: r in kept <==> r in records && r !in removed
  }

  /** No file of a removed record is left, but for those that cannot be removed. */
  ghost predicate Gone(removed: seq<Record>, f: Faults, disk: Contents) {
    forall r :: r in removed && r.path !in f.stuck ==> r.path !in disk
  }

  lemma PrunePromise(hash: Buffer -> string, m: Moment, keepIds: set<string>, records: seq<Record>,
          maxCount: Option<nat>, maxBytes: Option<nat>, f: Faults)
    requires Live(hash, m) && Lists(m.memory, keepIds, records)
    ensures var removed, kept := Pruned(records, 0, 0, maxCount, maxBytes), Retained(records, 0, 0, maxCount, maxBytes);
      var after := Last(m, PruneMoments(m, removed, f));
      && AllSound(hash, PruneMoments(m, removed, f))
      && Parted(records, removed, kept)
      && Lists(m.memory - KeysOf(removed), keepIds, kept) && MeetsLimits(kept, maxCount, maxBytes)
      && Keeps(m.memory, m.disk, after.disk, if f.save.Saved? then KeysOf(removed) else {})
      && (f.save.Saved? ==> Gone(removed, f, after.disk))
  {
    var removed := Pruned(records, 0, 0, maxCount, maxBytes);
    RemovedAreListed(m.memory, keepIds, records, removed, maxCount, maxBytes);
    PruneSound(hash, m, removed, f);
    PruneLeaves(hash, m, removed, f);
    PrunedOnce(m.memory, keepIds, records, maxCount, maxBytes);
    forall r
      ensures r in Retained(records, 0, 0, maxCount, maxBytes) <==> r in records && r !in removed
    {
      ListedAreNewest(m.memory, keepIds, records);
      KeptOrPruned(records, r, 0, 0, maxCount, maxBytes);
    }
    hide Pruned, Retained, PruneMoments, AllSound, Lists, MeetsLimits, Keeps, KeysOf;
  }

  lemma ListedAreNewest(index: Index, keepIds: set<string>, records: seq<Record>)
    requires Lists(index, keepIds, records)
    ensures Newest(records)
  {}

  lemma PrunedIs(m: Moment, removed: seq<Record>, f: Faults)
    ensures var saving := SaveMoments(m, m.memory - KeysOf(removed), f);
      PruneMoments(m, removed, f) ==
        (if removed == [] then [] else if f.save.Saved? then saving + DropAllMoments(Last(m, saving), removed, f)
          else saving)
    ensures m.memory - KeysOf([]) == m.memory
  {
    hide DropAllMoments;
  }

  // ------------------------------------------------------------ the store

  class Store {
    var memory: Index
    var durable: Index
    var disk: Contents
    ghost var trace: seq<Moment>
    const hash: Buffer -> string

    ghost predicate Valid()
      reads this
    {
      trace != [] && trace[|trace| - 1] == Now()
    }

    ghost function Now(): Moment
      reads this
    {
      Moment(memory, durable, disk)
    }

    /** #init: the index is what the index file holds. */
    constructor (durable: Index, disk: Contents, hash: Buffer -> string)
      ensures Valid() && Now() == Moment(durable, durable, disk) && trace == [Now()] && this.hash == hash
      ensures Sound(hash, Now()) <==> Consistent(hash, durable, disk)
    {
      memory, this.durable, this.disk, this.hash := durable, durable, disk, hash;
      trace := [Moment(durable, durable, disk)];
    }

    ghost method Note()
      modifies this`trace
      ensures trace == old(trace) + [Now()] && Valid()
    {
      trace := trace + [Now()];
    }

    /** The moments since `start`. */
    ghost function Since(start: nat): seq<Moment>
      requires start <= |trace|
      reads this
    {
      trace[start..]
    }

    /** Where the store is after these moments. */
    lemma Arrived(before: seq<Moment>, moments: seq<Moment>)
      requires Valid() && before != [] && trace == before + moments
      ensures Last(before[|before| - 1], moments) == Now() == Moment(memory, durable, disk)
      ensures Since(|before|) == moments
    {}

    static lemma Regroup(before: seq<Moment>, a: seq<Moment>, b: seq<Moment>)
      ensures (before + a) + b == before + (a + b)
    {}

    lemma Starting()
      requires Valid()
      ensures trace != [] && trace[|trace| - 1] == Now() == Moment(memory, durable, disk)
    {}

    method Unlink(path: string, f: Faults)
      requires Valid()
      modifies this`disk, this`trace
      ensures Valid() && trace == old(trace) + DropMoments(old(Now()), path, f)
    {
      if path in disk && path !in f.stuck {
        disk := disk - {path};
        Note();
      }
    }

    method SaveIndex(index: Index, f: Faults) returns (saved: bool)
      requires Valid()
      modifies this`memory, this`durable, this`trace
      ensures Valid() && trace == old(trace) + SaveMoments(old(Now()), index, f)
      ensures saved <==> f.save.Saved?
      ensures memory == (if saved then index else old(memory)) && (saved ==> durable == index)
    {
      if f.save.NotSaved? {
        return false;
      }
      durable := index;
      Note();
      if f.save.SavedButThrew? {
        return false;
      }
      memory := index;
      Note();
      saved := true;
    }

    method StoreBytes(target: string, bytes: Buffer, f: Faults) returns (ok: bool)
      requires Valid()
      modifies this`disk, this`trace
      ensures Valid() && trace == old(trace) + StoreMoments(old(Now()), target, bytes, f)
      ensures ok <==> Stores(old(Now()), target, f)
      ensures SameBut(old(disk), disk, target)
      ensures target in old(disk) && !f.write.NotWritten? ==> disk == old(disk)
      ensures target in old(disk) && f.write.NotWritten? && target !in f.stuck ==> disk == old(disk) - {target}
    {
      StoreLeaves(Now(), target, bytes, f);
      if f.write.NotWritten? {
        Unlink(target, f);
        return false;
      }
      if target in disk {
        return false;
      }
      disk := disk[target := if f.write.Partial? then f.write.bytes else bytes];
      Note();
      ok := f.write.Written?;
      if !ok {
        Unlink(target, f);
      }
    }

    method CommitRecord(r: Record, f: Faults) returns (ok: bool)
      requires Valid()
      modifies this`memory, this`durable, this`disk, this`trace
      ensures Valid() && trace == old(trace) + CommitMoments(old(Now()), r, f)
      ensures ok <==> f.save.Saved?
      ensures memory == (if ok then old(memory)[r.key := r] else old(memory)) && (ok ==> durable == memory)
    {
      var before := memory;
      hide DropMoments;
      ok := SaveIndex(before[r.key := r], f);
      if !ok {
        Unlink(r.path, f);
      } else if r.key in before && before[r.key].path != r.path {
        Unlink(before[r.key].path, f);
      }
    }

    method Put(r: Record, bytes: Buffer, f: Faults) returns (ok: bool)
      requires Valid()
      modifies this`memory, this`durable, this`disk, this`trace
      ensures Valid() && trace == old(trace) + PutMoments(old(Now()), r, bytes, f)
      ensures ok <==> Puts(old(Now()), r.path, f)
      ensures memory == if ok then old(memory)[r.key := r] else old(memory)
      ensures ok ==> durable == memory
      ensures Live(hash, old(Now())) && Unreferenced(old(memory), r.path) ==>
        Keeps(old(memory), old(disk), disk, if ok then {r.key} else {})
      ensures Live(hash, old(Now())) && Unreferenced(old(memory), r.path) && ok ==>
        r.path in disk && disk[r.path] == bytes
      ensures Live(hash, old(Now())) && Unreferenced(old(memory), r.path) && Describes(hash, r, bytes) ==>
        Live(hash, Now()) && (ok ==> Sound(hash, Now()))
      ensures Sound(hash, old(Now())) && NewName(old(Now()), r.path) && Describes(hash, r, bytes) ==>
        (AllSound(hash, Since(|old(trace)|)) <==> !LateThrow(old(Now()), r.path, f))
      ensures Sound(hash, old(Now())) && AllSound(hash, Since(|old(trace)|)) ==> Sound(hash, Now())
    {
      ghost var m := Now();
      Starting();
      PutPromise(hash, m, r, bytes, f);
      hide *;
      ok := StoreAndCommit(r, bytes, f);
      Arrived(old(trace), PutMoments(m, r, bytes, f));
      LastIsSound(hash, m, PutMoments(m, r, bytes, f));
    }

    method StoreAndCommit(r: Record, bytes: Buffer, f: Faults) returns (ok: bool)
      requires Valid()
      modifies this`memory, this`durable, this`disk, this`trace
      ensures Valid() && trace == old(trace) + PutMoments(old(Now()), r, bytes, f)
      ensures ok <==> Puts(old(Now()), r.path, f)
      ensures memory == (if ok then old(memory)[r.key := r] else old(memory)) && (ok ==> durable == memory)
    {
      ghost var m := Now();
      Starting();
      PutIs(m, r, bytes, f);
      hide *;
      ok := StoreBytes(r.path, bytes, f);
      Arrived(old(trace), StoreMoments(m, r.path, bytes, f));
      if ok {
        ghost var stored := Last(m, StoreMoments(m, r.path, bytes, f));
        Regroup(old(trace), StoreMoments(m, r.path, bytes, f), CommitMoments(stored, r, f));
        ok := CommitRecord(r, f);
      }
    }

    /** importArtifactPath, and importLocalPath. */
    method Import(i: Importing, f: Faults) returns (ok: bool)
      requires Valid()
      modifies this`memory, this`durable, this`disk, this`trace
      ensures Valid() && trace == old(trace) + ImportMoments(hash, old(Now()), i, f)
      ensures ok <==> i.source in old(disk) && !i.image.Rejected? && Puts(old(Now()), i.target, f)
      ensures ok ==> memory == durable == old(memory)[i.key := ImportedRecord(hash, i, old(disk)[i.source])]
      ensures !ok ==> memory == old(memory)
      ensures Sound(hash, old(Now())) && NewName(old(Now()), i.target) ==>
        (AllSound(hash, Since(|old(trace)|)) <==> !Breaks(hash, old(Now()), Op.Import(i), f))
      ensures Sound(hash, old(Now())) && AllSound(hash, Since(|old(trace)|)) ==> Sound(hash, Now())
      ensures ok && Live(hash, old(Now())) && Unreferenced(old(memory), i.target) ==>
        i.target in disk && disk[i.target] == old(disk)[i.source]
    {
      ghost var m := Now();
      Starting();
      ImportPromise(hash, m, i, f);
      hide *;
      ok := CopyIn(i, f);
      Arrived(old(trace), ImportMoments(hash, m, i, f));
      LastIsSound(hash, m, ImportMoments(hash, m, i, f));
    }

    method CopyIn(i: Importing, f: Faults) returns (ok: bool)
      requires Valid()
      modifies this`memory, this`durable, this`disk, this`trace
      ensures Valid() && trace == old(trace) + ImportMoments(hash, old(Now()), i, f)
      ensures ok <==> i.source in old(disk) && !i.image.Rejected? && Puts(old(Now()), i.target, f)
      ensures ok ==> memory == durable == old(memory)[i.key := ImportedRecord(hash, i, old(disk)[i.source])]
      ensures !ok ==> memory == old(memory)
    {
      ghost var m := Now();
      Starting();
      hide *;
      if i.source !in disk || i.image.Rejected? {
        NothingImported(hash, m, i, f);
        return false;
      }
      var bytes := disk[i.source];
      var r := ImportedRecord(hash, i, bytes);
      ImportedIs(hash, m, i, f);
      ok := StoreAndCommit(r, bytes, f);
      Arrived(old(trace), PutMoments(m, r, bytes, f));
      if ok && RemovesSource(memory, i) {
        ghost var stored := Last(m, PutMoments(m, r, bytes, f));
        Regroup(old(trace), PutMoments(m, r, bytes, f), DropMoments(stored, i.source, f));
        Unlink(i.source, f);
      }
    }

    /** #remove. `None` when there is no such file, `Some(false)` when the index could not be saved. */
    method Remove(id: string, f: Faults) returns (removed: Option<bool>)
      requires Valid()
      modifies this`memory, this`durable, this`disk, this`trace
      ensures Valid() && trace == old(trace) + RemoveMoments(old(Now()), id, f)
      ensures removed == if FirstKey(old(memory), id) in old(memory) then Some(f.save.Saved?) else None
      ensures removed == Some(true) ==> memory == durable == old(memory) - {FileKey(id), ArtifactKey(id)}
      ensures removed != Some(true) ==> memory == old(memory) && disk == old(disk)
      ensures Live(hash, old(Now())) ==> AllSound(hash, Since(|old(trace)|))
      ensures Sound(hash, old(Now())) ==> Sound(hash, Now())
      ensures Live(hash, old(Now())) ==>
        Keeps(old(memory), old(disk), disk, if removed == Some(true) then {FirstKey(old(memory), id)} else {})
      ensures Live(hash, old(Now())) && removed == Some(true) ==>
        var path := old(memory)[FirstKey(old(memory), id)].path; path !in f.stuck ==> path !in disk
    {
      ghost var m := Now();
      RemovePromise(hash, m, id, f);
      SoundIs(hash, m);
      LastIsSound(hash, m, RemoveMoments(m, id, f));
      var key := FirstKey(memory, id);
      var before := memory;
      hide DropMoments, SaveMoments, Live, Sound, AllSound, Keeps;
      if key !in before {
        Arrived(old(trace), []);
        return None;
      }
      var saved := SaveIndex(before - {FileKey(id), ArtifactKey(id)}, f);
      Arrived(old(trace), SaveMoments(m, before - {FileKey(id), ArtifactKey(id)}, f));
      if !saved {
        return Some(false);
      }
      Unlink(before[key].path, f);
      Arrived(old(trace), RemoveMoments(m, id, f));
      removed := Some(true);
    }

    /** The artifacts that may be pruned, newest first. */
    method NewestFirst(keepIds: set<string>) returns (records: seq<Record>)
      requires Live(hash, Now())
      ensures Lists(memory, keepIds, records)
    {
      var pending := set k | k in memory && k.ArtifactKey? && k.id !in keepIds;
      ghost var all, done: set<Key> := pending, {};
      records := [];
      assert forall k :: k in memory ==> memory[k].key == k;
      hide Consistent;
      while pending != {}
        invariant done !! pending && done + pending == all
        invariant ListsKeys(memory, done, records)
        decreases pending
      {
        var k :| k in pending;
        InsertLists(memory, done, records, k);
        records := InsertByAge(records, memory[k]);
        pending, done := pending - {k}, done + {k};
      }
    }

    /** #pruneArtifacts. `saved` is false when the index could not be saved. What is listed afterwards meets the
        limits. */
    method PruneArtifacts(keepIds: set<string>, maxCount: Option<nat>, maxBytes: Option<nat>, f: Faults)
      returns (removed: seq<Record>, saved: bool, ghost records: seq<Record>, ghost kept: seq<Record>)
      requires Valid() && Live(hash, Now())
      modifies this`memory, this`durable, this`disk, this`trace
      ensures Valid() && trace == old(trace) + PruneMoments(old(Now()), removed, f)
      ensures AllSound(hash, Since(|old(trace)|)) && (Sound(hash, old(Now())) ==> Sound(hash, Now()))
      ensures Lists(old(memory), keepIds, records) && removed == Pruned(records, 0, 0, maxCount, maxBytes)
      ensures saved <==> removed == [] || f.save.Saved?
      ensures saved ==> memory == old(memory) - KeysOf(removed)
      ensures !saved ==> memory == old(memory) && disk == old(disk)
      ensures Parted(records, removed, kept)
      ensures saved ==> Lists(memory, keepIds, kept) && MeetsLimits(kept, maxCount, maxBytes)
      ensures Keeps(old(memory), old(disk), disk, if saved then KeysOf(removed) else {})
      ensures saved ==> Gone(removed, f, disk)
    {
      ghost var m := Now();
      Starting();
      hide *;
      var sorted := NewestFirst(keepIds);
      records, kept := sorted, Retained(sorted, 0, 0, maxCount, maxBytes);
      removed := SelectPruned(sorted, maxCount, maxBytes);
      PrunePromise(hash, m, keepIds, sorted, maxCount, maxBytes, f);
      saved := ReplaceIndex(removed, f);
      Arrived(old(trace), PruneMoments(m, removed, f));
      LastIsSound(hash, m, PruneMoments(m, removed, f));
    }

    /** The shorter index is saved before any file goes. */
    method ReplaceIndex(removed: seq<Record>, f: Faults) returns (saved: bool)
      requires Valid()
      modifies this`memory, this`durable, this`disk, this`trace
      ensures Valid() && trace == old(trace) + PruneMoments(old(Now()), removed, f)
      ensures saved <==> removed == [] || f.save.Saved?
      ensures memory == if saved then old(memory) - KeysOf(removed) else old(memory)
      ensures !saved || removed == [] ==> disk == old(disk)
    {
      ghost var m := Now();
      Starting();
      PrunedIs(m, removed, f);
      hide *;
      saved := true;
      if removed != [] {
        saved := SaveIndex(memory - KeysOf(removed), f);
        Arrived(old(trace), SaveMoments(m, m.memory - KeysOf(removed), f));
        if saved {
          ghost var replaced := Last(m, SaveMoments(m, m.memory - KeysOf(removed), f));
          Regroup(old(trace), SaveMoments(m, m.memory - KeysOf(removed), f), DropAllMoments(replaced, removed, f));
          DropAll(removed, f);
        }
      }
    }

    /** The files of records that are no longer listed. */
    method DropAll(removed: seq<Record>, f: Faults)
      requires Valid()
      modifies this`disk, this`trace
      ensures Valid() && trace == old(trace) + DropAllMoments(old(Now()), removed, f)
    {
      var n := 0;
      hide DropMoments;
      while n < |removed|
        invariant 0 <= n <= |removed| && Valid()
        invariant trace + DropAllMoments(Now(), removed[n..], f) == old(trace) + DropAllMoments(old(Now()), removed, f)
      {
        ghost var m, was := Now(), trace;
        Unlink(removed[n].path, f);
        Arrived(was, DropMoments(m, removed[n].path, f));
        assert removed[n..][0] == removed[n] && removed[n..][1..] == removed[n + 1..];
        n := n + 1;
      }
    }
  }
}
