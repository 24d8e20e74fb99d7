/** What the inode cache of src/filesystems/vfs_dcache.c means: two plain maps. */
module DcacheModel {
  import opened Common

  /** st_dev and st_ino: which file it is. */
  datatype Key = Key(dev: nat, ino: nat)

  /** The rest of struct stat, as far as the cache changes it, and the target of a symlink. */
  datatype Stat = Stat(size: int, atime: int, mtime: int, symlink: Option<string>)

  /** Each path names a file, each file has one record. */
  datatype Cached = Cached(paths: map<string, Key>, stats: map<Key, Stat>)

  const EMPTY := Cached(map[], map[])

  datatype Op =
    | Add(path: string, key: Key, stat: Stat)
    | Find(path: string)
    | Resize(path: string, size: int, now: int)

  /** cache_add_inode keeps the record it has; change_file_size does nothing for a path unknown. */
  function Apply(c: Cached, op: Op): Cached {
    match op
    case Add(path, key, stat) =>
      Cached(c.paths[path := key], if key in c.stats then c.stats else c.stats[key := stat])
    case Find(_) => c
    case Resize(path, size, now) =>
      if path in c.paths && c.paths[path] in c.stats then
        var s := c.stats[c.paths[path]];
        c.(stats := c.stats[c.paths[path] := Stat(size, now, now, s.symlink)])
      else c
  }

  function Lookup(c: Cached, path: string): Option<(Key, Stat)> {
    if path in c.paths && c.paths[path] in c.stats then Some((c.paths[path], c.stats[c.paths[path]])) else None
  }

  function After(ops: seq<Op>): Cached {
    if ops == [] then EMPTY else Apply(After(ops[..|ops| - 1]), ops[|ops| - 1])
  }

  /** What each operation answers: the inode found or added. */
  function Answer(c: Cached, op: Op): Option<(Key, Stat)> {
    Lookup(Apply(c, op), op.path)
  }

  function Answers(ops: seq<Op>): seq<Option<(Key, Stat)>> {
    if ops == [] then []
    else Answers(ops[..|ops| - 1]) + [Answer(After(ops[..|ops| - 1]), ops[|ops| - 1])]
  }

  /** The file that a path was last added for. */
  function LastAdded(ops: seq<Op>, path: string): Option<Key> {
    if ops == [] then None
    else
      var op := ops[|ops| - 1];
      if op.Add? && op.path == path then Some(op.key) else LastAdded(ops[..|ops| - 1], path)
  }

  /** The record of a file: the first one added for it, with the sizes set since. */
  function LastStat(ops: seq<Op>, key: Key): Option<Stat> {
    if ops == [] then None
    else
      var op, before := ops[|ops| - 1], ops[..|ops| - 1];
      var s := LastStat(before, key);
      match op
      case Add(_, k, stat) => if k == key && s.None? then Some(stat) else s
      case Find(_) => s
      case Resize(path, size, now) =>
        if LastAdded(before, path) == Some(key) && s.Some? then Some(Stat(size, now, now, s.value.symlink)) else s
  }

  /** The maps hold exactly what the history says. */
  lemma {:induction false} HistoryDecides(ops: seq<Op>)
    ensures var c := After(ops);
            && (forall p :: LastAdded(ops, p) == if p in c.paths then Some(c.paths[p]) else None)
            && (forall k :: LastStat(ops, k) == if k in c.stats then Some(c.stats[k]) else None)
            && (forall p :: p in c.paths ==> c.paths[p] in c.stats)
  {
    if ops != [] {
      HistoryDecides(ops[..|ops| - 1]);
    }
  }

  /** What a lookup should answer after a history. */
  ghost predicate Tells(ops: seq<Op>, path: string, answer: Option<(Key, Stat)>) {
    match LastAdded(ops, path)
    case None => answer == None
    case Some(key) => LastStat(ops, key).Some? && answer == Some((key, LastStat(ops, key).value))
  }

  lemma LookupTells(ops: seq<Op>, path: string)
    ensures Tells(ops, path, Lookup(After(ops), path))
  {
    HistoryDecides(ops);
  }

  /** Every operation answers with the file that its path was last added for and with that file's first
      record and the sizes set since, counting the operation itself; a lookup, which changes nothing,
      answers with what was there before. */
  lemma {:induction false} AnswersByHistory(ops: seq<Op>, i: nat)
    requires i < |ops|
    ensures |Answers(ops)| == |ops|
    ensures Tells(ops[..i + 1], ops[i].path, Answers(ops)[i])
    ensures ops[i].Find? ==> Tells(ops[..i], ops[i].path, Answers(ops)[i])
  {
    var n := |ops| - 1;
    var before := ops[..n];
    if i < n {
      AnswersByHistory(before, i);
      assert before[..i + 1] == ops[..i + 1] && before[..i] == ops[..i];
    } else {
      if n > 0 { AnswersByHistory(before, 0); }
      assert ops[..i + 1] == ops;
      LookupTells(ops, ops[i].path);
      LookupTells(before, ops[i].path);
    }
  }

  /** After any history, a size set through one path is what another path shows exactly when both
      were last added for the same file; every other path shows what it showed before. */
  lemma SizeSeenThroughLinks(ops: seq<Op>, p: string, q: string, size: int, now: int)
    requires LastAdded(ops, p).Some? && LastAdded(ops, q).Some?
    ensures var c, c' := After(ops), After(ops + [Resize(p, size, now)]);
            && Lookup(c, q).Some? && Lookup(c', q).Some?
            && Lookup(c', q).value.0 == LastAdded(ops, q).value
            && Lookup(c', q).value.1 ==
               if LastAdded(ops, q) == LastAdded(ops, p) then Stat(size, now, now, Lookup(c, q).value.1.symlink)
               else Lookup(c, q).value.1
  {
    HistoryDecides(ops);
    assert (ops + [Resize(p, size, now)])[..|ops|] == ops;
  }
}
