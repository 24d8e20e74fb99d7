/** The inode cache (src/filesystems/vfs_dcache.c lines 44-58, 114-125, 154-209, 379-387):
    two tables of chained nodes, changed in place, for any two hash functions. */
module Dcache {
  import opened Common
  import opened DcacheModel

  const MAX_HASH := 13277

  /** struct okfs_inode. Nothing changes st_dev, st_ino or the symlink after creat_inode. */
  class Inode {
    const key: Key
    const symlink: Option<string>
    var size: int
    var atime: int
    var mtime: int

    constructor (key: Key, stat: Stat)
      ensures this.key == key && Current() == stat
    {
      this.key, symlink := key, stat.symlink;
      size, atime, mtime := stat.size, stat.atime, stat.mtime;
    }

    method SetSize(size: int, now: int)
      modifies this
      ensures Current() == Stat(size, now, now, symlink)
    {
      this.size, atime, mtime := size, now, now;
    }

    function Current(): Stat
      reads this
    {
      Stat(size, atime, mtime, symlink)
    }
  }

  /** struct ipath_lhead */
  datatype PathNode = PathNode(path: string, inode: Inode)

  /** A chain answers with its first match. */
  ghost function FirstPath(chain: seq<PathNode>, path: string): Option<Inode> {
    if chain == [] then None
    else if chain[0].path == path then Some(chain[0].inode)
    else FirstPath(chain[1..], path)
  }

  ghost function FirstInode(chain: seq<Inode>, key: Key): Option<Inode> {
    if chain == [] then None else if chain[0].key == key then Some(chain[0]) else FirstInode(chain[1..], key)
  }

  ghost function Get<K, V>(m: map<K, V>, k: K): Option<V> {
    if k in m then Some(m[k]) else None
  }

  ghost predicate DistinctKeys(chain: seq<Inode>) {
    forall i, j :: 0 <= i < j < |chain| ==> chain[i].key != chain[j].key
  }

  lemma {:induction false} NoneInChain(chain: seq<Inode>, key: Key)
    requires FirstInode(chain, key).None?
    ensures forall i :: 0 <= i < |chain| ==> chain[i].key != key
  {
    if chain != [] {
      NoneInChain(chain[1..], key);
      assert forall i :: 1 <= i < |chain| ==> chain[i] == chain[1..][i - 1];
    }
  }

  /** Both tables answer as the maps do, the inode table holds each file once, and every path
      leads to the one inode of its file. */
  ghost predicate TablesOk(hash: string -> nat, inodeHash: Key -> nat, ipath: seq<seq<PathNode>>, inr: seq<seq<Inode>>,
                           paths: map<string, Inode>, inodes: map<Key, Inode>)
  {
    && |ipath| == |inr| == MAX_HASH && (forall p :: hash(p) < MAX_HASH) && (forall k :: inodeHash(k) < MAX_HASH)
    && (forall p :: FirstPath(ipath[hash(p)], p) == Get(paths, p))
    && (forall k :: FirstInode(inr[inodeHash(k)], k) == Get(inodes, k))
    && (forall h :: 0 <= h < MAX_HASH ==> DistinctKeys(inr[h]))
    && (forall k :: k in inodes ==> inodes[k].key == k)
    && (forall p :: p in paths ==> Get(inodes, paths[p].key) == Some(paths[p]))
  }

  /** The caches of struct okfs_superblock. */
  class Superblock {
    const hash: string -> nat
    const inodeHash: Key -> nat
    const ipathCache: array<seq<PathNode>>
    const inrCache: array<seq<Inode>>
    ghost var paths: map<string, Inode>
    ghost var inodes: map<Key, Inode>
    ghost var model: Cached

    ghost predicate Valid()
      reads this, ipathCache, inrCache, Repr()
    {
      Tables() && Shown(model.paths, model.stats)
    }

    /** `model` holds what the inodes hold. */
    ghost predicate Shown(names: map<string, Key>, stats: map<Key, Stat>)
      reads this`paths, this`inodes, Repr()
    {
      && names.Keys == paths.Keys && (forall p :: p in paths ==> names[p] == paths[p].key)
      && stats.Keys == inodes.Keys && (forall k :: k in inodes ==> stats[k] == inodes[k].Current())
    }

    ghost predicate Tables()
      reads this`paths, this`inodes, ipathCache, inrCache
    {
      && ipathCache.Length == MAX_HASH && inrCache.Length == MAX_HASH
      && TablesOk(hash, inodeHash, ipathCache[..], inrCache[..], paths, inodes)
    }

    /** The inodes that can be reached. */
    ghost function Repr(): set<Inode>
      reads this`inodes
    {
      inodes.Values
    }

    constructor (hash: string -> nat, inodeHash: Key -> nat)
      requires (forall p :: hash(p) < MAX_HASH) && (forall k :: inodeHash(k) < MAX_HASH)
      ensures Valid() && Repr() == {} && model == EMPTY && fresh(ipathCache) && fresh(inrCache)
    {
      this.hash, this.inodeHash := hash, inodeHash;
      ipathCache := new seq<PathNode>[MAX_HASH](_ => []);
      inrCache := new seq<Inode>[MAX_HASH](_ => []);
      paths, inodes, model := map[], map[], EMPTY;
    }

    /** Two cached paths share the inode object exactly when device and number agree. */
    lemma SharedExactly(p: string, q: string)
      requires Tables() && p in paths && q in paths
      ensures paths[p] == paths[q] <==> paths[p].key == paths[q].key
    {
      assert Get(inodes, paths[p].key) == Some(paths[p]);
      assert Get(inodes, paths[q].key) == Some(paths[q]);
    }

    /** cache_find_inode */
    method FindInode(path: string) returns (r: Inode?)
      requires Tables()
      ensures r == if path in paths then paths[path] else null
    {
      var head := ipathCache[hash(path)];
      ghost var wanted := FirstPath(head, path);
      assert wanted == Get(paths, path);
      while head != [] && head[0].path != path
        invariant FirstPath(head, path) == wanted
      {
        head := head[1..];
      }
      if head != [] {
        return head[0].inode;
      }
      return null;
    }

    /** same_ino_find */
    method SameInoFind(key: Key) returns (r: Inode?)
      requires Tables()
      ensures r == if key in inodes then inodes[key] else null
    {
      var head := inrCache[inodeHash(key)];
      ghost var wanted := FirstInode(head, key);
      assert wanted == Get(inodes, key);
      while head != [] && head[0].key != key
        invariant FirstInode(head, key) == wanted
      {
        head := head[1..];
      }
      if head != [] {
        return head[0];
      }
      return null;
    }

    /** creat_inode */
    method CreatInode(key: Key, stat: Stat) returns (r: Inode)
      requires Tables() && key !in inodes
      modifies this`inodes, inrCache
      ensures Tables() && fresh(r) && r.key == key && r.Current() == stat
      ensures inodes == old(inodes)[key := r]
    {
      var h := inodeHash(key);
      ghost var chain := inrCache[h];
      assert FirstInode(chain, key) == Get(inodes, key);
      NoneInChain(chain, key);
      r := new Inode(key, stat);
      inrCache[h] := [r] + inrCache[h];
      inodes := inodes[key := r];
      assert inrCache[h][1..] == chain;
      assert DistinctKeys(inrCache[h]);
    }

    /** path_insert */
    method PathInsert(path: string, inode: Inode)
      requires Tables() && Get(inodes, inode.key) == Some(inode)
      modifies this`paths, ipathCache
      ensures Tables() && paths == old(paths)[path := inode]
    {
      var h := hash(path);
      ghost var chain := ipathCache[h];
      ipathCache[h] := [PathNode(path, inode)] + ipathCache[h];
      paths := paths[path := inode];
      assert ipathCache[h][1..] == chain;
    }

    /** cache_add_inode: an inode already known for the file is used as it is. */
    method AddInode(path: string, key: Key, stat: Stat) returns (r: Inode)
      requires Valid()
      modifies this`paths, this`inodes, this`model, ipathCache, inrCache
      ensures Valid() && paths == old(paths)[path := r] && r.key == key
      ensures key in old(inodes) ==> r == old(inodes[key]) && inodes == old(inodes)
      ensures key !in old(inodes) ==> fresh(r) && r.Current() == stat && inodes == old(inodes)[key := r]
      ensures model == Apply(old(model), Add(path, key, stat))
    {
      var found := SameInoFind(key);
      if found == null {
        r := NewInode(key, stat);
      } else {
        r := found;
      }
      LinkPath(path, r);
    }

    method NewInode(key: Key, stat: Stat) returns (r: Inode)
      requires Valid() && key !in inodes
      modifies this`inodes, this`model, inrCache
      ensures Valid() && fresh(r) && r.key == key && r.Current() == stat && inodes == old(inodes)[key := r]
      ensures model == old(model).(stats := old(model.stats)[key := stat])
    {
      r := CreatInode(key, stat);
      model := model.(stats := model.stats[key := stat]);
    }

    method LinkPath(path: string, inode: Inode)
      requires Valid() && Get(inodes, inode.key) == Some(inode)
      modifies this`paths, this`model, ipathCache
      ensures Valid() && paths == old(paths)[path := inode]
      ensures model == old(model).(paths := old(model.paths)[path := inode.key])
    {
      PathInsert(path, inode);
      model := model.(paths := model.paths[path := inode.key]);
    }

    /** The inode of a path is a record of the model. */
    lemma KnownPath(path: string)
      requires Valid() && path in paths
      ensures path in model.paths && paths[path] in Repr() && Get(inodes, paths[path].key) == Some(paths[path])
      ensures Lookup(model, path) == Some((paths[path].key, paths[path].Current()))
    {
    }

    /** Lines 383-385, for a cached inode. */
    method SetSize(inode: Inode, size: int, now: int, ghost names: map<string, Key>, ghost stats: map<Key, Stat>)
      requires Get(inodes, inode.key) == Some(inode) && (forall k :: k in inodes ==> inodes[k].key == k)
      requires Shown(names, stats)
      modifies inode
      ensures Shown(names, stats[inode.key := Stat(size, now, now, stats[inode.key].symlink)])
    {
      inode.SetSize(size, now);
    }

    method ResizeKnown(path: string, inode: Inode, size: int, now: int)
      requires Valid() && path in paths && paths[path] == inode
      modifies this`model, inode
      ensures Valid() && model == Apply(old(model), Resize(path, size, now))
    {
      KnownPath(path);
      ghost var goal := model.stats[inode.key := Stat(size, now, now, model.stats[inode.key].symlink)];
      assert Apply(model, Resize(path, size, now)) == model.(stats := goal);
      SetSize(inode, size, now, model.paths, model.stats);
      model := model.(stats := goal);
    }

    /** change_file_size: every path of the same file sees it, since they share the inode. */
    method ChangeFileSize(path: string, size: int, now: int)
      requires Valid()
      modifies this`model, Repr()
      ensures Valid() && model == Apply(old(model), Resize(path, size, now))
    {
      var inode := FindInode(path);
      if inode != null {
        KnownPath(path);
        ResizeKnown(path, inode, size, now);
      }
    }

    /** What a caller sees of an operation. */
    method Do(op: Op) returns (answer: Option<(Key, Stat)>)
      requires Valid()
      modifies this`paths, this`inodes, this`model, ipathCache, inrCache, Repr()
      ensures Valid() && model == Apply(old(model), op) && answer == Answer(old(model), op)
      ensures fresh(Repr() - old(Repr()))
    {
      var inode: Inode?;
      match op {
        case Add(path, key, stat) => inode := AddInode(path, key, stat);
        case Find(path) => inode := FindInode(path);
        case Resize(path, size, now) =>
          ChangeFileSize(path, size, now);
          inode := FindInode(path);
      }
      if inode == null {
        return None;
      }
      KnownPath(op.path);
      return Some((inode.key, inode.Current()));
    }
  }

  /** Any sequence of additions, lookups and size changes, on an empty cache with any two hash
      functions, answers as the plain maps do. */
  method Replay(hash: string -> nat, inodeHash: Key -> nat, ops: seq<Op>) returns (answers: seq<Option<(Key, Stat)>>)
    requires (forall p :: hash(p) < MAX_HASH) && (forall k :: inodeHash(k) < MAX_HASH)
    ensures answers == Answers(ops)
    ensures |answers| == |ops| && forall i :: 0 <= i < |ops| ==> DcacheModel.Tells(ops[..i + 1], ops[i].path, answers[i])
  {
    var fs := new Superblock(hash, inodeHash);
    answers := [];
    var i := 0;
    while i < |ops|
      invariant 0 <= i <= |ops| && answers == Answers(ops[..i])
      invariant fs.Valid() && fs.model == After(ops[..i])
      invariant fresh(fs) && fresh(fs.ipathCache) && fresh(fs.inrCache) && fresh(fs.Repr())
    {
      ghost var now := ops[..i + 1];
      assert now[..|now| - 1] == ops[..i] && now[|now| - 1] == ops[i];
      var answer := fs.Do(ops[i]);
      answers := answers + [answer];
      i := i + 1;
    }
    assert ops[..i] == ops;
    forall k | 0 <= k < |ops| ensures |answers| == |ops| && DcacheModel.Tells(ops[..k + 1], ops[k].path, answers[k]) {
      AnswersByHistory(ops, k);
    }
  }
}
