/** ConfigEditor of bcfuzzer/mutator.py on files: snapshots, edits and rollback. */
module ConfigFiles {
  import opened Results
  import opened Text
  import opened ConfigLines
  import opened LineFormat
  import opened LineEditor

  /** The text files of the machine, by path. */
  class Disk {
    var files: map<string, string>

    constructor (files: map<string, string>)
      ensures this.files == files
    {
      this.files := files;
    }
  }

  function Content(files: map<string, string>, path: string): Option<string> {
    if path in files then Some(files[path]) else None
  }

  function Restored(files: map<string, string>, path: string, content: Option<string>): map<string, string> {
    match content
    case None => files - {path}
    case Some(text) => files[path := text]
  }

  /** What a structural (YAML) operation makes of a file's text. */
  datatype Outcome = Raise | Keep | Save(text: string)

  /** One mutation of one file. A `Tree` edit is a YAML write_value, an apply_list_op or an apply_nested_op. */
  datatype Edit =
    | Line(section: string, key: string, leaf: string)
    | Tree(transform: string -> Outcome)

  class ConfigEditor {
    const disk: Disk
    var backups: map<string, Option<string>>
    ghost var origin: map<string, string>  // the files as they were when `backups` was last empty

    ghost predicate Valid()
      reads this, disk
    {
      forall p :: Content(origin, p) == if p in backups then backups[p] else Content(disk.files, p)
    }

    constructor (disk: Disk)
      ensures Valid() && this.disk == disk && backups == map[] && origin == disk.files
    {
      this.disk := disk;
      backups := map[];
      origin := disk.files;
    }

    method Snapshot(path: string)
      requires Valid()
      modifies this
      ensures Valid() && origin == old(origin)
      ensures backups == if path in old(backups) then old(backups) else old(backups)[path := Content(disk.files, path)]
    {
      if path !in backups {
        backups := backups[path := Content(disk.files, path)];
      }
    }

    method ReadValue(path: string, section: string, key: string) returns (value: Option<string>)
      requires path in disk.files
      ensures value == Lookup(Settings(SplitLines(disk.files[path])), section, key)
    {
      value := LineEditor.ReadValue(SplitLines(disk.files[path]), section, key);
    }

    /** write_value on a TOML or INI file; false when there is no file to read, which raises. */
    method WriteValue(path: string, section: string, key: string, leaf: string) returns (ok: bool)
      requires Valid()
      modifies this, disk
      ensures Valid() && origin == old(origin)
      ensures ok <==> path in old(disk.files)
      ensures disk.files
              == if ok
                 then old(disk.files)[path := JoinLines(Edited(SplitLines(old(disk.files)[path]), section, key, leaf))]
                 else old(disk.files)
      ensures path in backups && forall p | p in old(backups) :: p in backups && backups[p] == old(backups)[p]
    {
      Snapshot(path);
      if path !in disk.files { return false; }
      var lines := WriteLine(SplitLines(disk.files[path]), section, key, leaf);
      disk.files := disk.files[path := JoinLines(lines)];
      ok := true;
    }

    /** The structural operations: snapshot, load, transform, dump. */
    method EditTree(path: string, transform: string -> Outcome) returns (ok: bool)
      requires Valid()
      modifies this, disk
      ensures Valid() && origin == old(origin)
      ensures ok <==> path in old(disk.files) && !transform(old(disk.files)[path]).Raise?
      ensures forall p | p != path :: Content(disk.files, p) == Content(old(disk.files), p)
      ensures Content(disk.files, path)
              == if ok && transform(old(disk.files)[path]).Save? then Some(transform(old(disk.files)[path]).text)
                 else Content(old(disk.files), path)
    {
      Snapshot(path);
      if path !in disk.files { return false; }
      match transform(disk.files[path]) {
        case Raise => return false;
        case Keep =>
        case Save(text) => disk.files := disk.files[path := text];
      }
      ok := true;
    }

    method Apply(path: string, edit: Edit) returns (ok: bool)
      requires Valid()
      modifies this, disk
      ensures Valid() && origin == old(origin)
    {
      match edit
      case Line(section, key, leaf) => ok := WriteValue(path, section, key, leaf);
      case Tree(transform) => ok := EditTree(path, transform);
    }

    /** Puts back every file that was touched and removes the ones that were not there. */
    method Rollback()
      requires Valid()
      modifies this, disk
      ensures Valid() && origin == old(origin)
      ensures disk.files == origin && backups == map[]
    {
      var pending := backups.Keys;
      while pending != {}
        invariant pending <= backups.Keys
        invariant backups == old(backups) && origin == old(origin)
        invariant forall p :: Content(origin, p) == if p in pending then backups[p] else Content(disk.files, p)
      {
        var path :| path in pending;
        disk.files := Restored(disk.files, path, backups[path]);
        pending := pending - {path};
      }
      SameContent(disk.files, origin);
      backups := map[];
    }
  }

  lemma SameContent(a: map<string, string>, b: map<string, string>)
    requires forall p :: Content(a, p) == Content(b, p)
    ensures a == b
  {
    forall p ensures p in a <==> p in b {
      assert Content(a, p) == Content(b, p);
    }
    forall p | p in a ensures a[p] == b[p] {
      assert Content(a, p) == Content(b, p);
    }
  }

  /** Any run of edits over any files, failed ones included, followed by a rollback, leaves the disk as it was. */
  method MutateAndRollback(disk: Disk, edits: seq<(string, Edit)>)
    modifies disk
    ensures disk.files == old(disk.files)
  {
    var editor := new ConfigEditor(disk);
    for i := 0 to |edits|
      invariant editor.Valid() && fresh(editor) && editor.disk == disk
      invariant editor.origin == old(disk.files)
    {
      var _ := editor.Apply(edits[i].0, edits[i].1);
    }
    editor.Rollback();
  }
}
