/** The crash-safe configuration storage.

    Saving first copies the data file to the backup and then truncates and rewrites the data file.
    Truncating a file, writing one character and the final sync are one step each, and an
    interruption - a crash or a failing write - may stop the save after any number of steps.
    Loading falls back from the data file to the backup to the defaults, decoding each into the
    model that is already there. */
module Storage {
  import opened Wrappers
  import opened Json
  import opened JsonLaws
  import opened JsonTorn
  import opened Models

  datatype Disk = Disk(data: Option<string>, backup: Option<string>)

  datatype Defaults = NotConfigured | Missing | File(body: string)

  datatype Loaded = Loaded(model: Model, ok: bool)

  function Body(m: Model, fs: Fields): string { Text(Obj(ToItems(m, fs)), 0) }

  // Decoding a text into a model: text that is no JSON changes nothing, a value of the wrong kind is
  // skipped, and both are errors.
  function Decoded(base: Model, body: string, fs: Fields): Loaded {
    match Decode(body)
    case Some(Null) => Loaded(base, true)
    case Some(Obj(items)) => Loaded(MergeItems(base, items, fs), AcceptsItems(items, fs))
    case _ => Loaded(base, false)
  }

  // The data file if it decodes, else the backup if there is one; without a data file there is nothing
  // to load.
  function LoadData(base: Model, disk: Disk, fs: Fields): Loaded {
    if disk.data.None? then Loaded(base, true)
    else
      var data := Decoded(base, disk.data.value, fs);
      if data.ok || disk.backup.None? then data else Decoded(data.model, disk.backup.value, fs)
  }

  function LoadResult(base: Model, disk: Disk, defaults: Defaults, fs: Fields): Loaded {
    if defaults.File? then
      var start := Decoded(base, defaults.body, fs);
      if !start.ok || disk.data.None? then start
      else Loaded(LoadData(start.model, disk, fs).model, true)
    else if disk.data.None? then Loaded(base, defaults.NotConfigured?)
    else LoadData(base, disk, fs)
  }

  // A file after at most `steps` elementary steps of truncating it, writing body and syncing.
  function Written(file: Option<string>, body: string, steps: nat): Option<string> {
    if steps == 0 then file else Some(if steps - 1 < |body| then body[..steps - 1] else body)
  }

  function WriteSteps(body: string): nat { 2 + |body| }

  function BackupSteps(disk: Disk): nat {
    if disk.data.None? then 0 else WriteSteps(disk.data.value)
  }

  function SaveSteps(disk: Disk, body: string): nat { BackupSteps(disk) + WriteSteps(body) }

  // The disk after a save that got no further than `steps` elementary steps.
  function SavedDisk(disk: Disk, body: string, steps: nat): Disk {
    if steps < BackupSteps(disk) then disk.(backup := Written(disk.backup, disk.data.value, steps))
    else Disk(Written(disk.data, body, steps - BackupSteps(disk)),
              if disk.data.None? then disk.backup else disk.data)
  }

  /** A file on disk; None when it does not exist. */
  class File {
    var content: Option<string>

    constructor (content: Option<string>)
      ensures this.content == content
    {
      this.content := content;
    }

    method Write(body: string, steps: nat) returns (left: nat, done: bool)
      modifies this
      ensures content == Written(old(content), body, steps)
      ensures done <==> steps >= WriteSteps(body)
      ensures done ==> left == steps - WriteSteps(body)
    {
      if steps == 0 {
        return 0, false;
      }
      content, left := Some(""), steps - 1;
      while left > 0 && |content.value| < |body|
        invariant content.Some? && |content.value| <= |body| && content.value == body[..|content.value|]
        invariant left + |content.value| == steps - 1
      {
        content := Some(content.value + [body[|content.value|]]);
        left := left - 1;
      }
      assert body[..|body|] == body;
      // the last step is the sync
      done := left > 0;
      left := if done then left - 1 else 0;
    }
  }

  /** The storage service: two files and the model they are loaded into. */
  class Store {
    const data: File
    const backup: File
    var model: Model
    const fields: Fields
    const defaults: Defaults

    constructor (model: Model, fields: Fields, defaults: Defaults, disk: Disk)
      ensures this.model == model && this.fields == fields && this.defaults == defaults
      ensures Valid() && OnDisk() == disk && fresh(data) && fresh(backup)
    {
      this.model, this.fields, this.defaults := model, fields, defaults;
      data := new File(disk.data);
      backup := new File(disk.backup);
    }

    ghost predicate Valid() { data != backup }

    function OnDisk(): Disk
      reads data, backup
    {
      Disk(data.content, backup.content)
    }

    method MakeBackup(steps: nat) returns (left: nat, done: bool)
      requires Valid()
      modifies backup
      ensures done <==> steps >= BackupSteps(old(OnDisk()))
      ensures done ==> left == steps - BackupSteps(old(OnDisk()))
      ensures backup.content ==
              if data.content.None? then old(backup.content)
              else Written(old(backup.content), data.content.value, steps)
    {
      if data.content.None? {
        return steps, true;
      }
      left, done := backup.Write(data.content.value, steps);
    }

    method Save(steps: nat) returns (ok: bool)
      requires Valid()
      modifies data, backup
      ensures OnDisk() == SavedDisk(old(OnDisk()), Body(model, fields), steps)
      ensures ok <==> steps >= SaveSteps(old(OnDisk()), Body(model, fields))
    {
      var left, done := MakeBackup(steps);
      if !done {
        return false;
      }
      left, ok := data.Write(Body(model, fields), left);
    }

    method ReadFile(body: string) returns (ok: bool)
      modifies this`model
      ensures Loaded(model, ok) == Decoded(old(model), body, fields)
    {
      var decoded := Decode(body);
      match decoded
      case Some(Null) => return true;
      case Some(Obj(items)) =>
        var rest := items;
        ok := true;
        while rest.More?
          invariant MergeItems(model, rest, fields) == MergeItems(old(model), items, fields)
          invariant ok && AcceptsItems(rest, fields) <==> AcceptsItems(items, fields)
          decreases rest
        {
          var shape := ShapeOf(fields, rest.key);
          if shape.Some? {
            if !IsSkipped(rest.value, shape.value) {
              model := model[rest.key := MergeValue(Get(model, rest.key), rest.value, shape.value)];
            }
            ok := ok && Accepts(rest.value, shape.value);
          }
          rest := rest.rest;
        }
      case _ => return false;
    }

    method Load() returns (ok: bool)
      modifies this`model
      ensures Loaded(model, ok) == LoadResult(old(model), OnDisk(), defaults, fields)
    {
      if data.content.None? && defaults.Missing? {
        return false;
      }
      if data.content.None? && defaults.NotConfigured? {
        return true;
      }
      if defaults.File? {
        ok := ReadFile(defaults.body);
        if !ok || data.content.None? {
          return;
        }
      }
      ok := ReadFile(data.content.value);
      if ok {
        return;
      }
      if backup.content.Some? {
        ok := ReadFile(backup.content.value);
      }
      ok := ok || defaults.File?;
    }
  }

  // ---------------------------------------------------------------- what a file loads as

  /** A completely written file loads as the saved model over whatever was there before. */
  lemma WholeFileLoads(base: Model, m: Model, fs: Fields)
    requires Storable(m, fs) && IsDeclared(fs)
    ensures Decoded(base, Body(m, fs), fs) == Loaded(Over(base, m, fs), true)
  {
    ItemsAreWritable(m, fs);
    ReadsBack(Obj(ToItems(m, fs)));
    IsPartOfItself(fs);
    DecodedItemsAreOver(base, m, fs, fs);
  }

  /** A file cut short anywhere does not load, and leaves the model alone. */
  lemma TornFileFails(base: Model, m: Model, fs: Fields, n: nat)
    requires Storable(m, fs) && IsDeclared(fs)
    requires n < |Body(m, fs)|
    ensures Decoded(base, Body(m, fs)[..n], fs) == Loaded(base, false)
  {
    ItemsAreWritable(m, fs);
    TornIsUnreadable(ToItems(m, fs), n);
  }

  /** Only objects load: null leaves the model alone, any other value fails, and so does an object followed by
      anything but white space. */
  lemma OnlyObjectsLoad(base: Model, v: Json, m: Model, tail: string, fs: Fields)
    requires Storable(m, fs) && IsDeclared(fs) && Writable(v)
    ensures !v.Obj? ==> Decoded(base, Text(v, 0), fs) == Loaded(base, v.Null?)
    ensures SkipSpace(tail) != "" ==> Decoded(base, Body(m, fs) + tail, fs) == Loaded(base, false)
  {
    ReadsBack(v);
    ItemsAreWritable(m, fs);
    TrailingTextIff(ToItems(m, fs), tail);
  }

  // An object with one field.
  function OneField(key: string, j: Json): string { Text(Obj(More(key, j, End)), 0) }

  /** One field in a file: an unknown one is ignored; one of the wrong kind - anything but an object for a
      record or a dictionary, anything but an array for a list - leaves the model alone and fails; null clears
      what can be missing and is ignored otherwise. */
  lemma FieldsByKind(base: Model, key: string, j: Json, fs: Fields)
    requires IsStringBody(key) && Writable(j)
    ensures ShapeOf(fs, key).None? ==> Decoded(base, OneField(key, j), fs) == Loaded(base, true)
    ensures ShapeOf(fs, key).Some? ==>
      var shape, loaded := ShapeOf(fs, key).value, Decoded(base, OneField(key, j), fs);
      if j.Null? then
        loaded == Loaded(if shape.Dictionary? || shape.Sequence? || (shape.Record? && shape.optional)
                            || (shape.Scalar? && shape.zero.Null?) then base[key := Leaf(Null)] else base, true)
      else if (shape.Record? || shape.Dictionary?) && !j.Obj? then loaded == Loaded(base, false)
      else if shape.Sequence? && !j.Arr? then loaded == Loaded(base, false)
      else loaded.model.Keys == base.Keys + {key} && (shape.Scalar? ==> loaded == Loaded(base[key := Leaf(j)], true))
  {
    assert WritableItems(End, true);
    ReadsBack(Obj(More(key, j, End)));
    OneItem(base, key, j, fs);
  }

  /** A file loads without an error if and only if every declared field in it, and everything in those, is of
      the right kind. */
  lemma ObjectLoadsIff(base: Model, items: Items, fs: Fields)
    requires WritableItems(items, true)
    ensures Decoded(base, Text(Obj(items), 0), fs).ok <==>
      forall i :: 0 <= i < Length(items) ==> IsFine(items, fs, i)
  {
    ReadsBack(Obj(items));
    ItemsAcceptedIff(items, fs);
  }

  /** A data file with something of the wrong kind in it leaves its good part in place: the backup is loaded
      over that. */
  lemma BackupLoadsOverPartialData(start: Model, data: string, m: Model, fs: Fields)
    requires Storable(m, fs) && IsDeclared(fs) && !Decoded(start, data, fs).ok
    ensures LoadData(start, Disk(Some(data), Some(Body(m, fs))), fs)
         == Loaded(Over(Decoded(start, data, fs).model, m, fs), true)
  {
    WholeFileLoads(Decoded(start, data, fs).model, m, fs);
  }

  // ---------------------------------------------------------------- loading without a data file

  /** The first start of an application, and every other one without a data file, whatever the backup: the
      defaults file is loaded over the blank model and has to decode; a configured one that is missing is an
      error, and without one configured there is nothing to load. */
  lemma LoadsWithoutData(blank: Model, backup: Option<string>, defaults: Defaults, fs: Fields, given: Model)
    requires Storable(given, fs) && IsDeclared(fs)
    ensures var loaded := LoadResult(blank, Disk(None, backup), defaults, fs);
      match defaults
      case NotConfigured => loaded == Loaded(blank, true)
      case Missing => loaded == Loaded(blank, false)
      case File(body) =>
        && (body == Body(given, fs) ==> loaded == Loaded(Over(blank, given, fs), true))
        && (Decode(body).None? ==> loaded == Loaded(blank, false))
        && (loaded.ok <==> Decoded(blank, body, fs).ok)
  {
    WholeFileLoads(blank, given, fs);
  }

  /** Defaults that do not decode make every load fail, whatever is on disk.  A data file and a backup that
      both fail to decode make it fail without defaults, and give the defaults otherwise. */
  lemma UnreadableFiles(blank: Model, disk: Disk, defaults: Defaults, fs: Fields)
    ensures defaults.File? && Decode(defaults.body).None? ==>
              LoadResult(blank, disk, defaults, fs) == Loaded(blank, false)
    ensures disk.data.Some? && Decode(disk.data.value).None? && (disk.backup.Some? ==> Decode(disk.backup.value).None?)
            && Start(blank, defaults, fs).ok ==>
              LoadResult(blank, disk, defaults, fs) == Loaded(Start(blank, defaults, fs).model, defaults.File?)
  {
  }

  // ---------------------------------------------------------------- runs of saves

  datatype Op = Save(model: Model, steps: nat)

  // The disk together with the last completed save and the interrupted one after it, if any.
  datatype History = History(disk: Disk, last: Model, cut: Option<Model>)

  predicate Completes(h: History, op: Op, fs: Fields) { op.steps >= SaveSteps(h.disk, Body(op.model, fs)) }

  function Step(h: History, op: Op, fs: Fields): History {
    var disk := SavedDisk(h.disk, Body(op.model, fs), op.steps);
    if Completes(h, op, fs) then History(disk, op.model, None)
    else History(disk, h.last, Some(op.model))
  }

  function Run(h: History, ops: seq<Op>, fs: Fields): History
    decreases |ops|
  {
    if ops == [] then h else Run(Step(h, ops[0], fs), ops[1..], fs)
  }

  // No interrupted save follows another without a completed one between them.
  predicate NeverCutTwice(h: History, ops: seq<Op>, fs: Fields)
    decreases |ops|
  {
    ops == [] ||
    ((Completes(h, ops[0], fs) || h.cut.None?) && NeverCutTwice(Step(h, ops[0], fs), ops[1..], fs))
  }

  ghost predicate AllStorable(ops: seq<Op>, fs: Fields) {
    forall i :: 0 <= i < |ops| ==> Storable(ops[i].model, fs)
  }

  // A completed save, as yet undisturbed.
  ghost predicate IsSaved(h: History, fs: Fields) {
    h.cut.None? && h.disk.data == Some(Body(h.last, fs)) && Storable(h.last, fs) && IsDeclared(fs)
  }

  ghost predicate Recoverable(h: History, fs: Fields) {
    && Storable(h.last, fs)
    && (h.cut.None? ==> h.disk.data == Some(Body(h.last, fs)))
    && (h.cut.Some? ==>
          && Storable(h.cut.value, fs)
          && (|| h.disk.data == Some(Body(h.last, fs))
              || (&& h.disk.data.Some?
                  && h.disk.data.value <= Body(h.cut.value, fs)
                  && h.disk.backup == Some(Body(h.last, fs)))))
  }

  lemma StepKeepsRecoverable(h: History, op: Op, fs: Fields)
    requires Recoverable(h, fs) && Storable(op.model, fs)
    requires Completes(h, op, fs) || h.cut.None?
    ensures Recoverable(Step(h, op, fs), fs)
  {
  }

  lemma {:induction false} RunKeepsRecoverable(h: History, ops: seq<Op>, fs: Fields)
    requires Recoverable(h, fs) && AllStorable(ops, fs) && NeverCutTwice(h, ops, fs)
    ensures Recoverable(Run(h, ops, fs), fs)
    decreases |ops|
  {
    if ops != [] {
      StepKeepsRecoverable(h, ops[0], fs);
      RunKeepsRecoverable(Step(h, ops[0], fs), ops[1..], fs);
    }
  }

  // The blank model with the defaults decoded into it.
  function Start(blank: Model, defaults: Defaults, fs: Fields): Loaded {
    if defaults.File? then Decoded(blank, defaults.body, fs) else Loaded(blank, true)
  }

  // The interrupted model once all of it is in the data file, and the last completed one until then.
  function Survivor(h: History, fs: Fields): Model {
    if h.cut.Some? && h.disk.data == Some(Body(h.cut.value, fs)) then h.cut.value else h.last
  }

  /** Whatever step an interruption stops at, loading gives the last completed save - or the interrupted
      one exactly when all of it had been written - laid over the defaults. */
  lemma LoadRecovers(h: History, ops: seq<Op>, fs: Fields, blank: Model, defaults: Defaults)
    requires IsSaved(h, fs) && AllStorable(ops, fs) && NeverCutTwice(h, ops, fs)
    requires Start(blank, defaults, fs).ok
    ensures var end, start := Run(h, ops, fs), Start(blank, defaults, fs).model;
      LoadResult(blank, end.disk, defaults, fs) == Loaded(Over(start, Survivor(end, fs), fs), true)
  {
    RunKeepsRecoverable(h, ops, fs);
    RecoverableLoads(Run(h, ops, fs), fs, Start(blank, defaults, fs).model);
  }

  lemma RecoverableLoads(h: History, fs: Fields, start: Model)
    requires Recoverable(h, fs) && IsDeclared(fs)
    ensures LoadData(start, h.disk, fs) == Loaded(Over(start, Survivor(h, fs), fs), true)
  {
    WholeFileLoads(start, h.last, fs);
    if h.disk.data != Some(Body(h.last, fs)) {
      var n, whole := |h.disk.data.value|, Body(h.cut.value, fs);
      if n < |whole| {
        assert h.disk.data.value == whole[..n];
        TornFileFails(start, h.cut.value, fs, n);
      } else {
        assert h.disk.data.value == whole;
        WholeFileLoads(start, h.cut.value, fs);
      }
    } else if h.cut.Some? && h.disk.data == Some(Body(h.cut.value, fs)) {
      WholeFileLoads(start, h.cut.value, fs);
    }
  }

  /** A save that completes is what loads, whatever was on disk. */
  lemma CompletedSaveLoads(h: History, m: Model, steps: nat, fs: Fields, blank: Model, defaults: Defaults)
    requires Storable(m, fs) && IsDeclared(fs) && Start(blank, defaults, fs).ok
    requires steps >= SaveSteps(h.disk, Body(m, fs))
    ensures LoadResult(blank, Step(h, Save(m, steps), fs).disk, defaults, fs)
         == Loaded(Over(Start(blank, defaults, fs).model, m, fs), true)
    ensures Step(h, Save(m, steps), fs).last == m
  {
    WholeFileLoads(Start(blank, defaults, fs).model, m, fs);
  }

  /** The backup comes first: until all of the old data file is copied and synced, that file is untouched and
      the backup is a prefix of it, empty after the first step; and then the backup is all of it. */
  lemma BackupComesFirst(data: string, backup: Option<string>, body: string, steps: nat)
    ensures var disk := SavedDisk(Disk(Some(data), backup), body, steps);
      if steps < |data| + 2 then
        && disk.data == Some(data)
        && disk.backup == if steps == 0 then backup else Some(data[..if steps - 1 < |data| then steps - 1 else |data|])
      else disk.backup == Some(data)
  {
    assert data[..|data|] == data;
  }

  /** A save that fails only in its last step, the sync, reports an error and is what loads. */
  lemma UnsyncedSaveLoads(h: History, m: Model, fs: Fields, blank: Model, defaults: Defaults)
    requires IsSaved(h, fs) && Storable(m, fs) && Start(blank, defaults, fs).ok
    ensures var op := Save(m, SaveSteps(h.disk, Body(m, fs)) - 1);
      && !Completes(h, op, fs)
      && LoadResult(blank, Step(h, op, fs).disk, defaults, fs)
         == Loaded(Over(Start(blank, defaults, fs).model, m, fs), true)
  {
    var op := Save(m, SaveSteps(h.disk, Body(m, fs)) - 1);
    StepKeepsRecoverable(h, op, fs);
    RecoverableLoads(Step(h, op, fs), fs, Start(blank, defaults, fs).model);
  }

  /** The saved model itself comes back if and only if it holds, record by record, element by element
      and in every dictionary, whatever the defaults put there. */
  lemma SavedModelComesBackIff(h: History, fs: Fields, blank: Model, defaults: Defaults)
    requires IsSaved(h, fs) && Start(blank, defaults, fs).ok
    ensures LoadResult(blank, h.disk, defaults, fs).model == h.last
       <==> CoversAll(h.last, Start(blank, defaults, fs).model, fs)
  {
    LoadRecovers(h, [], fs, blank, defaults);
    ModelComesBackIff(Start(blank, defaults, fs).model, h.last, fs);
  }

  /** Whatever the saved model left out of a record or dictionary, at any depth, is loaded as the defaults
      have it. */
  lemma OmittedComesFromDefaults(h: History, fs: Fields, blank: Model, defaults: Defaults, path: seq<Place>)
    requires IsSaved(h, fs) && Start(blank, defaults, fs).ok && IsOmitted(Some(Tree(h.last)), path)
    ensures At(Some(Tree(LoadResult(blank, h.disk, defaults, fs).model)), path)
         == At(Some(Tree(Start(blank, defaults, fs).model)), path)
  {
    var start := Start(blank, defaults, fs).model;
    LoadRecovers(h, [], fs, blank, defaults);
    OmittedIsFilledIn(Some(Tree(start)), Tree(h.last), Record(false, fs), path);
  }

  // The same for a defaults file that was written from a model.
  lemma DefaultsFillIn(given: Model, saved: Model, fs: Fields, disk: Disk, path: seq<Place>)
    requires IsDeclared(fs) && Storable(given, fs) && Storable(saved, fs) && disk.data == Some(Body(saved, fs))
    requires IsOmitted(Some(Tree(saved)), path)
    ensures var loaded := LoadResult(map[], disk, File(Body(given, fs)), fs);
      loaded.ok && At(Some(Tree(loaded.model)), path) == At(Some(Tree(given)), path)
  {
    WholeFileLoads(map[], given, fs);
    ModelComesBackIff(map[], given, fs);
    AllCoverNothing(given, fs);
    var h := History(disk, saved, None);
    LoadRecovers(h, [], fs, map[], File(Body(given, fs)));
    OmittedComesFromDefaults(h, fs, map[], File(Body(given, fs)), path);
  }

  // ---------------------------------------------------------------- one save more

  // What is there to fall back on when a save starts: the data file, which is copied first, or the
  // backup while there is no data file yet.
  function Fallback(disk: Disk): Option<string> { if disk.data.Some? then disk.data else disk.backup }

  predicate CanFallBack(disk: Disk, fs: Fields, start: Model) {
    Fallback(disk).Some? && Decoded(start, Fallback(disk).value, fs).ok
  }

  /** The save about to start survives every interruption exactly when there is a file to fall back on
      that decodes at that moment, whatever the defaults: the backup is made from the data file, torn or
      not, and the first save of all has neither. */
  lemma NextSaveIsSafeIff(disk: Disk, m: Model, fs: Fields, start: Model)
    requires Storable(m, fs) && IsDeclared(fs)
    ensures (forall steps: nat :: LoadData(start, SavedDisk(disk, Body(m, fs), steps), fs).ok)
       <==> CanFallBack(disk, fs, start)
  {
    if CanFallBack(disk, fs, start) {
      forall steps: nat ensures LoadData(start, SavedDisk(disk, Body(m, fs), steps), fs).ok {
        NextSaveLoads(disk, m, fs, start, steps);
      }
    } else {
      assert Written(None, Body(m, fs), 1) == Some("");
      assert disk.data.Some? ==> Written(disk.backup, disk.data.value, 1) == Some("");
      assert !LoadData(start, SavedDisk(disk, Body(m, fs), 1), fs).ok;
    }
  }

  /** With a file to fall back on, every load during the save gives what that file holds, the model
      being saved, or - before the first data file is created - what was there. */
  lemma NextSaveLoads(disk: Disk, m: Model, fs: Fields, start: Model, steps: nat)
    requires Storable(m, fs) && IsDeclared(fs) && CanFallBack(disk, fs, start)
    ensures var loaded := LoadData(start, SavedDisk(disk, Body(m, fs), steps), fs);
      || loaded == Decoded(start, Fallback(disk).value, fs)
      || loaded == Loaded(Over(start, m, fs), true)
      || (disk.data.None? && steps == 0 && loaded == Loaded(start, true))
  {
    WholeFileLoads(start, m, fs);
    var data := SavedDisk(disk, Body(m, fs), steps).data;
    if data.Some? && data != disk.data && data.value != Body(m, fs) {
      assert data.value == Body(m, fs)[..|data.value|];
      TornFileFails(start, m, fs, |data.value|);
    }
  }

  /** So the first save ever, cut short as soon as the file exists, leaves a storage without defaults
      that fails to load. */
  lemma FirstSaveCanFail(m: Model, fs: Fields, blank: Model)
    ensures LoadResult(blank, SavedDisk(Disk(None, None), Body(m, fs), 1), NotConfigured, fs) == Loaded(blank, false)
  {
    assert Written(None, Body(m, fs), 1) == Some("");
  }

  /** Two interruptions in a row can lose every saved model: a storage with a defaults file then loads
      the defaults and reports success, one without reports an error. */
  lemma TwoCutsLose(h: History, first: Model, second: Model, fs: Fields, blank: Model, defaults: Defaults)
    requires IsSaved(h, fs) && Start(blank, defaults, fs).ok
    ensures var ops := [Save(first, BackupSteps(h.disk) + 1), Save(second, 1)];
      LoadResult(blank, Run(h, ops, fs).disk, defaults, fs)
      == Loaded(Start(blank, defaults, fs).model, defaults.File?)
  {
    var ops := [Save(first, BackupSteps(h.disk) + 1), Save(second, 1)];
    var once := Step(h, ops[0], fs);
    assert once.disk.data == Some("");
    assert Run(h, ops, fs) == Run(once, ops[1..], fs) == Step(once, ops[1], fs);
    assert Run(h, ops, fs).disk == Disk(Some(""), Some(""));
  }
}
