/**
  File discovery of page-cache-warmer (page-cache-warmer/filesystem.c): the
  growable `file_list` the warmer reads from, the LIFO stack of directories
  still to list, and what a worker does with one directory.  The workers run
  here one after the other; `opendir`, `readdir`, `lstat` and `realloc` are
  inputs.
*/
module PageCacheFiles {
  import opened Wrappers
  import opened CInt

  /** `MAX_PATH_LENGTH`, which the header defines as Linux's `PATH_MAX`. */
  const MAX_PATH_LENGTH: nat := 4096

  /** The capacity the first growth of a `file_list` allocates. */
  const INITIAL_CAPACITY: nat := 1024

  type Path = string

  /** `struct file_info`: a copy of the path and its `st_size`. */
  datatype FileInfo = FileInfo(path: Path, size: int)

  /** A C string copied into a `MAX_PATH_LENGTH` buffer: at most `MAX_PATH_LENGTH - 1` characters survive. */
  function Truncate(s: string): (t: string)
    ensures |t| < MAX_PATH_LENGTH && t <= s
    ensures |s| < MAX_PATH_LENGTH ==> t == s
  {
    s[..Min(|s|, MAX_PATH_LENGTH - 1)]
  }

  /** `snprintf(full_path, sizeof(full_path), "%s/%s", dir, name)`. */
  function JoinPath(dir: Path, name: string): Path
  {
    Truncate(dir + "/" + name)
  }

  // ---------------------------------------------------------------------
  // file_list
  // ---------------------------------------------------------------------

  class FileList {
    var files: array?<FileInfo>
    var count: nat
    var capacity: nat

    ghost predicate Valid()
      reads this
    {
      count <= capacity &&
      (files == null ==> capacity == 0) &&
      (files != null ==> files.Length == capacity)
    }

    ghost function Contents(): seq<FileInfo>
      reads this, files
      requires Valid()
    {
      if files == null then [] else files[..count]
    }

    /** `file_list_init`. */
    constructor ()
      ensures Valid() && files == null && count == 0 && capacity == 0
      ensures Contents() == []
    {
      files := null;
      count := 0;
      capacity := 0;
    }

    /**
      `file_list_append`: when full, grows to 1024 or twice the capacity;
      `reallocOk` is the outcome of `realloc`, and on failure nothing changes.
    */
    method Append(path: Path, size: int, reallocOk: bool)
      requires Valid()
      modifies this, files
      ensures Valid()
      ensures old(count) < old(capacity) || reallocOk ==>
        Contents() == old(Contents()) + [FileInfo(path, size)] && count == old(count) + 1
      ensures old(count) >= old(capacity) && !reallocOk ==>
        files == old(files) && count == old(count) && capacity == old(capacity) &&
        Contents() == old(Contents())
      ensures capacity ==
        if old(count) < old(capacity) || !reallocOk then old(capacity)
        else if old(capacity) == 0 then INITIAL_CAPACITY
        else 2 * old(capacity)
      ensures old(count) < old(capacity) ==> files == old(files)
      ensures old(count) >= old(capacity) && reallocOk ==> fresh(files)
    {
      if count >= capacity {
        var newCapacity := if capacity == 0 then INITIAL_CAPACITY else capacity * 2;
        if !reallocOk {
          return;
        }
        var grown := new FileInfo[newCapacity];
        var previous := files;
        forall i | 0 <= i < count {
          grown[i] := previous[i];
        }
        files := grown;
        capacity := newCapacity;
      }
      files[count] := FileInfo(path, size);
      count := count + 1;
    }

    /** `file_list_free`: frees each stored path in index order, then the array. */
    method Free() returns (freed: seq<Path>)
      requires Valid()
      modifies this
      ensures Valid() && files == null && count == 0 && capacity == 0
      ensures Contents() == []
      ensures |freed| == |old(Contents())|
      ensures forall i :: 0 <= i < |freed| ==> freed[i] == old(Contents())[i].path
    {
      freed := [];
      var i := 0;
      while i < count
        invariant 0 <= i <= count
        invariant |freed| == i
        invariant forall j :: 0 <= j < i ==> freed[j] == Contents()[j].path
      {
        freed := freed + [files[i].path];
        i := i + 1;
      }
      files := null;
      count := 0;
      capacity := 0;
    }
  }

  /**
    The entries kept by appends from a list of `count` entries in `capacity`
    slots when every `realloc` has the outcome `reallocOk`: all of them, or,
    when growth fails, as many as fit.
  */
  function Kept(n: nat, count: nat, capacity: nat, reallocOk: bool): (k: nat)
    ensures k <= n
  {
    if reallocOk || count > capacity then n else Min(n, capacity - count)
  }

  // ---------------------------------------------------------------------
  // The directory stack
  // ---------------------------------------------------------------------

  /** `struct path_queue_item` without its link. */
  datatype Item = Item(path: Path, depth: int)

  /** The linked stack at `*head` and the shared `queue_size`. */
  class PathStack {
    var items: seq<Item>
    var queueSize: int

    /** `queue_size` is the stack length whenever the queue mutex is free. */
    predicate Valid()
      reads this
    {
      queueSize == |items|
    }

    /** `discover_files`: the root directory enqueued at `current_depth`, and `queue_size = 1`. */
    constructor (root: Path, depth: int)
      ensures Valid() && items == [Item(Truncate(root), depth)]
    {
      items := [Item(Truncate(root), depth)];
      queueSize := 1;
    }

    /** `enqueue_path`: a new head holding the truncated path and the depth; `queue_size` is the caller's. */
    method EnqueuePath(path: Path, depth: int)
      modifies this
      ensures items == [Item(Truncate(path), depth)] + old(items)
      ensures queueSize == old(queueSize)
    {
      items := [Item(Truncate(path), depth)] + items;
    }

    /** The locked section that enqueues a subdirectory: push, then `(*queue_size)++`. */
    method PushDirectory(path: Path, depth: int)
      requires Valid()
      modifies this
      ensures Valid() && items == [Item(Truncate(path), depth)] + old(items)
    {
      EnqueuePath(path, depth);
      queueSize := queueSize + 1;
    }

    /** A worker takes the head, which it waited for `queue_size != 0` to do. */
    method Pop() returns (head: Item)
      requires Valid() && queueSize > 0
      modifies this
      ensures Valid() && [head] + items == old(items)
    {
      head := items[0];
      items := items[1..];
      queueSize := queueSize - 1;
    }
  }

  // ---------------------------------------------------------------------
  // A worker's pass over one directory
  // ---------------------------------------------------------------------

  /** The outcome of `lstat` on an entry. */
  datatype Stat = StatFailed | Directory | Regular(size: int) | OtherKind

  /** A `readdir` entry with the outcome of `lstat` on its full path. */
  datatype DirEntry = DirEntry(name: string, stat: Stat)

  /** What the worker does with one entry. */
  datatype Action = Skip | Descend(path: Path, depth: int) | AddFile(info: FileInfo)

  /**
    `.`, `..` and entries whose `lstat` fails are skipped; a directory is
    descended into, one level deeper, when `max_depth == -1` or the parent is
    above it; a regular file is added with its `st_size`; anything else is
    skipped.
  */
  function Classify(parent: Item, e: DirEntry, maxDepth: int): Action
  {
    if e.name == "." || e.name == ".." then Skip
    else
      var full := JoinPath(parent.path, e.name);
      match e.stat
      case StatFailed => Skip
      case Directory => if maxDepth == -1 || parent.depth < maxDepth then Descend(full, parent.depth + 1) else Skip
      case Regular(size) => AddFile(FileInfo(full, size))
      case OtherKind => Skip
  }

  /** The subdirectories a listing enqueues, in `readdir` order. */
  function Subdirs(parent: Item, entries: seq<DirEntry>, maxDepth: int): seq<Item>
  {
    if entries == [] then []
    else
      var a := Classify(parent, entries[|entries| - 1], maxDepth);
      Subdirs(parent, entries[..|entries| - 1], maxDepth) +
      (if a.Descend? then [Item(Truncate(a.path), a.depth)] else [])
  }

  /** The regular files a listing appends, in `readdir` order. */
  function RegularFiles(parent: Item, entries: seq<DirEntry>, maxDepth: int): seq<FileInfo>
  {
    if entries == [] then []
    else
      var a := Classify(parent, entries[|entries| - 1], maxDepth);
      RegularFiles(parent, entries[..|entries| - 1], maxDepth) + (if a.AddFile? then [a.info] else [])
  }

  /** Pushing `pushed` one by one onto `rest`: the last pushed ends on top. */
  function PushedOnto(pushed: seq<Item>, rest: seq<Item>): (s: seq<Item>)
    ensures |s| == |pushed| + |rest|
  {
    if pushed == [] then rest else [pushed[|pushed| - 1]] + PushedOnto(pushed[..|pushed| - 1], rest)
  }

  /**
    The classification: every descended-into directory is one level below its
    parent and allowed by the depth rule, every added file is a regular file
    of the listing with its size, and `.`/`..` never produce anything.
  */
  lemma ClassifyRules(parent: Item, e: DirEntry, maxDepth: int)
    ensures var a := Classify(parent, e, maxDepth);
      && (e.name == "." || e.name == ".." || e.stat.StatFailed? || e.stat.OtherKind? ==> a == Skip)
      && (a.Descend? <==> e.name != "." && e.name != ".." && e.stat.Directory? &&
                          (maxDepth == -1 || parent.depth < maxDepth))
      && (a.Descend? ==> a.depth == parent.depth + 1 && a.path == JoinPath(parent.path, e.name))
      && (a.AddFile? <==> e.name != "." && e.name != ".." && e.stat.Regular?)
      && (a.AddFile? ==> a.info == FileInfo(JoinPath(parent.path, e.name), e.stat.size))
  {
  }

  /** With a depth limit, nothing deeper than `max_depth` is ever enqueued from a parent within it. */
  lemma {:induction false} SubdirsWithinDepth(parent: Item, entries: seq<DirEntry>, maxDepth: int)
    requires maxDepth != -1
    ensures forall i :: 0 <= i < |Subdirs(parent, entries, maxDepth)| ==>
      Subdirs(parent, entries, maxDepth)[i].depth == parent.depth + 1 <= maxDepth
  {
    if entries != [] {
      var init := entries[..|entries| - 1];
      var a := Classify(parent, entries[|entries| - 1], maxDepth);
      var front := Subdirs(parent, init, maxDepth);
      var last := if a.Descend? then [Item(Truncate(a.path), a.depth)] else [];
      SubdirsWithinDepth(parent, init, maxDepth);
      ClassifyRules(parent, entries[|entries| - 1], maxDepth);
      assert forall i :: 0 <= i < |last| ==> last[i].depth == parent.depth + 1 <= maxDepth;
      var all := Subdirs(parent, entries, maxDepth);
      assert all == front + last;
      forall i | 0 <= i < |all|
        ensures all[i].depth == parent.depth + 1 <= maxDepth
      {
        if i < |front| {
          assert all[i] == front[i];
        } else {
          assert all[i] == last[i - |front|];
        }
      }
      assert forall i :: 0 <= i < |Subdirs(parent, entries, maxDepth)| ==>
        Subdirs(parent, entries, maxDepth)[i].depth == parent.depth + 1 <= maxDepth;
    } else {
      assert Subdirs(parent, entries, maxDepth) == [];
    }
  }

  lemma ListingStep(parent: Item, entries: seq<DirEntry>, maxDepth: int, j: nat)
    requires j < |entries|
    ensures var a := Classify(parent, entries[j], maxDepth);
      && Subdirs(parent, entries[..j + 1], maxDepth) ==
         Subdirs(parent, entries[..j], maxDepth) + (if a.Descend? then [Item(Truncate(a.path), a.depth)] else [])
      && RegularFiles(parent, entries[..j + 1], maxDepth) ==
         RegularFiles(parent, entries[..j], maxDepth) + (if a.AddFile? then [a.info] else [])
  {
    assert entries[..j + 1][..j] == entries[..j];
  }

  lemma PushedOntoSnoc(pushed: seq<Item>, x: Item, rest: seq<Item>)
    ensures PushedOnto(pushed + [x], rest) == [x] + PushedOnto(pushed, rest)
  {
    assert (pushed + [x])[..|pushed|] == pushed;
  }

  /**
    One iteration of `worker_thread`'s outer loop, after the pop: `listing`
    is `None` when `opendir` fails, and `reallocOk` the outcome of every
    `realloc` made meanwhile.  The subdirectories end up on top of the stack,
    the last one listed first, and the regular files are appended in order.
  */
  method ListDirectory(stack: PathStack, list: FileList, current: Item, listing: Option<seq<DirEntry>>,
                       maxDepth: int, reallocOk: bool)
    requires stack.Valid() && list.Valid()
    modifies stack, list, list.files
    ensures stack.Valid() && list.Valid()
    ensures var entries := if listing.Some? then listing.value else [];
      && stack.items == PushedOnto(Subdirs(current, entries, maxDepth), old(stack.items))
      && Keeps(list.Contents(), list.count, list.capacity, old(list.Contents()), old(list.count), old(list.capacity),
               RegularFiles(current, entries, maxDepth), reallocOk)
    ensures list.files == old(list.files) || fresh(list.files)
  {
    if listing.None? {
      return;
    }
    var entries := listing.value;
    ghost var items0 := stack.items;
    ghost var contents0 := list.Contents();
    ghost var count0, capacity0 := list.count, list.capacity;
    assert entries[..0] == [];
    var j := 0;
    while j < |entries|
      invariant 0 <= j <= |entries|
      invariant list.files == old(list.files) || fresh(list.files)
      invariant Listed(stack, list, current, entries[..j], maxDepth, reallocOk, items0, contents0, count0, capacity0)
    {
      ListEntry(stack, list, current, entries, j, maxDepth, reallocOk, items0, contents0, count0, capacity0);
      j := j + 1;
    }
    assert entries[..j] == entries;
  }

  /** The state after the first entries of a listing were handled. */
  ghost predicate Listed(stack: PathStack, list: FileList, current: Item, done: seq<DirEntry>, maxDepth: int,
                         reallocOk: bool, items0: seq<Item>, contents0: seq<FileInfo>, count0: nat, capacity0: nat)
    reads stack, list, list.files
  {
    && stack.Valid() && list.Valid() && count0 <= capacity0
    && stack.items == PushedOnto(Subdirs(current, done, maxDepth), items0)
    && Keeps(list.Contents(), list.count, list.capacity, contents0, count0, capacity0,
             RegularFiles(current, done, maxDepth), reallocOk)
  }

  /** One pass of the `readdir` loop, on entry `j` of the listing. */
  method ListEntry(stack: PathStack, list: FileList, current: Item, entries: seq<DirEntry>, j: nat, maxDepth: int,
                   reallocOk: bool, ghost items0: seq<Item>, ghost contents0: seq<FileInfo>,
                   ghost count0: nat, ghost capacity0: nat)
    requires j < |entries|
    requires Listed(stack, list, current, entries[..j], maxDepth, reallocOk, items0, contents0, count0, capacity0)
    modifies stack, list, list.files
    ensures Listed(stack, list, current, entries[..j + 1], maxDepth, reallocOk, items0, contents0, count0, capacity0)
    ensures list.files == old(list.files) || fresh(list.files)
  {
    ListingStep(current, entries, maxDepth, j);
    ghost var subdirs := Subdirs(current, entries[..j], maxDepth);
    ghost var added := RegularFiles(current, entries[..j], maxDepth);
    var action := Classify(current, entries[j], maxDepth);
    if action.Descend? {
      PushedOntoSnoc(subdirs, Item(Truncate(action.path), action.depth), items0);
    } else {
      assert Subdirs(current, entries[..j + 1], maxDepth) == subdirs + [];
      assert subdirs + [] == subdirs;
    }
    ghost var c, n, cap := list.Contents(), list.count, list.capacity;
    HandleEntry(stack, list, action, reallocOk);
    if action.AddFile? {
      KeepsStep(c, n, cap, list.Contents(), list.count, list.capacity, contents0, count0, capacity0,
                added, action.info, reallocOk);
    }
  }

  /** The loop body for one classified entry: enqueue it, append it, or nothing. */
  method HandleEntry(stack: PathStack, list: FileList, action: Action, reallocOk: bool)
    requires stack.Valid() && list.Valid()
    modifies stack, list, list.files
    ensures stack.Valid() && list.Valid()
    ensures stack.items == if action.Descend? then [Item(Truncate(action.path), action.depth)] + old(stack.items)
                           else old(stack.items)
    ensures !action.AddFile? ==> list.files == old(list.files) && list.count == old(list.count) &&
                                 list.capacity == old(list.capacity) && list.Contents() == old(list.Contents())
    ensures action.AddFile? && (old(list.count) < old(list.capacity) || reallocOk) ==>
      list.Contents() == old(list.Contents()) + [action.info] && list.count == old(list.count) + 1
    ensures action.AddFile? && old(list.count) >= old(list.capacity) && !reallocOk ==>
      list.count == old(list.count) && list.Contents() == old(list.Contents())
    ensures !reallocOk ==> list.capacity == old(list.capacity)
    ensures list.files == old(list.files) || fresh(list.files)
  {
    if action.Descend? {
      stack.PushDirectory(action.path, action.depth);
    } else if action.AddFile? {
      list.Append(action.info.path, action.info.size, reallocOk);
    }
  }

  /**
    A list holding `contents` in `count` of `capacity` slots after `added`
    was appended to `contents0` (`count0` entries in `capacity0` slots): the
    kept prefix is stored, and while growth fails the capacity is the old one.
  */
  ghost predicate Keeps(contents: seq<FileInfo>, count: nat, capacity: nat,
                        contents0: seq<FileInfo>, count0: nat, capacity0: nat,
                        added: seq<FileInfo>, reallocOk: bool)
  {
    var k := Kept(|added|, count0, capacity0, reallocOk);
    && contents == contents0 + added[..k]
    && count == count0 + k
    && (!reallocOk ==> capacity == capacity0)
  }

  /** One `file_list_append` moves the kept prefix on by one entry or, once growth has failed, leaves it. */
  lemma KeepsStep(contents: seq<FileInfo>, count: nat, capacity: nat,
                  contents': seq<FileInfo>, count': nat, capacity': nat,
                  contents0: seq<FileInfo>, count0: nat, capacity0: nat,
                  added: seq<FileInfo>, x: FileInfo, reallocOk: bool)
    requires Keeps(contents, count, capacity, contents0, count0, capacity0, added, reallocOk)
    requires count <= capacity && count0 <= capacity0
    requires count < capacity || reallocOk ==> contents' == contents + [x] && count' == count + 1
    requires count >= capacity && !reallocOk ==> contents' == contents && count' == count
    requires !reallocOk ==> capacity' == capacity
    ensures Keeps(contents', count', capacity', contents0, count0, capacity0, added + [x], reallocOk)
  {
    var k := Kept(|added|, count0, capacity0, reallocOk);
    assert (added + [x])[..k] == added[..k];
    if count < capacity || reallocOk {
      assert (added + [x])[..k + 1] == added[..k] + [x];
    }
  }

  /** Several appends in a row compose: the kept prefix of the whole is stored. */
  lemma KeepsTrans(c0: seq<FileInfo>, n0: nat, cap0: nat, c1: seq<FileInfo>, n1: nat, cap1: nat,
                   c2: seq<FileInfo>, n2: nat, cap2: nat, a: seq<FileInfo>, b: seq<FileInfo>, reallocOk: bool)
    requires n0 <= cap0 && n1 <= cap1
    requires Keeps(c1, n1, cap1, c0, n0, cap0, a, reallocOk)
    requires Keeps(c2, n2, cap2, c1, n1, cap1, b, reallocOk)
    ensures Keeps(c2, n2, cap2, c0, n0, cap0, a + b, reallocOk)
  {
    var k1 := Kept(|a|, n0, cap0, reallocOk);
    var k2 := Kept(|b|, n1, cap1, reallocOk);
    if k1 == |a| {
      assert (a + b)[..k1 + k2] == a + b[..k2];
    } else {
      assert k2 == 0;
      assert (a + b)[..k1] == a[..k1];
    }
  }

  // ---------------------------------------------------------------------
  // discover_files
  // ---------------------------------------------------------------------

  /** The entries `readdir` yields, none when `opendir` failed. */
  function Entries(listing: Option<seq<DirEntry>>): seq<DirEntry>
  {
    if listing.Some? then listing.value else []
  }

  /**
    The reference traversal: at most `fuel` directories taken from the top of
    the stack `items`, each listing's subdirectories pushed on what remains.
    The result is the regular files found, in order, and the stack left.
  */
  function Explore(items: seq<Item>, listing: Path -> Option<seq<DirEntry>>, maxDepth: int, fuel: nat)
    : (r: (seq<FileInfo>, seq<Item>))
    ensures fuel == 0 || items == [] ==> r == ([], items)
    decreases fuel
  {
    if fuel == 0 || items == [] then ([], items)
    else
      var head := items[0];
      var entries := Entries(listing(head.path));
      var next := Explore(PushedOnto(Subdirs(head, entries, maxDepth), items[1..]), listing, maxDepth, fuel - 1);
      (RegularFiles(head, entries, maxDepth) + next.0, next.1)
  }

  /** Every item of a push sequence comes from what was pushed or from what was under it. */
  lemma {:induction false} PushedOntoFrom(pushed: seq<Item>, rest: seq<Item>, x: Item)
    requires x in PushedOnto(pushed, rest)
    ensures x in pushed || x in rest
    decreases |pushed|
  {
    if pushed != [] {
      if x != pushed[|pushed| - 1] {
        PushedOntoFrom(pushed[..|pushed| - 1], rest, x);
      }
    }
  }

  /**
    With a depth limit, the stack never holds a directory deeper than the
    limit or than the directories it started with.
  */
  lemma {:induction false} ExploreWithinDepth(items: seq<Item>, listing: Path -> Option<seq<DirEntry>>,
                                              maxDepth: int, fuel: nat, bound: int)
    requires maxDepth != -1 && maxDepth <= bound
    requires forall x :: x in items ==> x.depth <= bound
    ensures forall x :: x in Explore(items, listing, maxDepth, fuel).1 ==> x.depth <= bound
    decreases fuel
  {
    if fuel != 0 && items != [] {
      var head := items[0];
      var entries := Entries(listing(head.path));
      var subdirs := Subdirs(head, entries, maxDepth);
      var next := PushedOnto(subdirs, items[1..]);
      SubdirsWithinDepth(head, entries, maxDepth);
      forall x | x in next
        ensures x.depth <= bound
      {
        PushedOntoFrom(subdirs, items[1..], x);
      }
      ExploreWithinDepth(next, listing, maxDepth, fuel - 1, bound);
    }
  }

  /**
    The state of the walk with `fuel` listings left: `found` the files
    appended so far, the stack still to be explored, and the list one that
    kept `found`'s prefix.
  */
  ghost predicate Walking(stack: PathStack, list: FileList, listing: Path -> Option<seq<DirEntry>>, maxDepth: int,
                          reallocOk: bool, fuel: nat, total: (seq<FileInfo>, seq<Item>), found: seq<FileInfo>,
                          c0: seq<FileInfo>, n0: nat, cap0: nat)
    reads stack, list, list.files
  {
    && stack.Valid() && list.Valid() && n0 <= cap0
    && total == (found + Explore(stack.items, listing, maxDepth, fuel).0, Explore(stack.items, listing, maxDepth, fuel).1)
    && Keeps(list.Contents(), list.count, list.capacity, c0, n0, cap0, found, reallocOk)
  }

  /**
    `discover_files` with its workers taking turns: the root is enqueued,
    and directories are popped and listed until the stack is empty, or until
    `fuel` directories were listed.  `listing` gives `readdir`'s entries for
    each path, `None` when `opendir` fails.
  */
  method DiscoverFiles(list: FileList, root: Path, rootDepth: int, maxDepth: int,
                       listing: Path -> Option<seq<DirEntry>>, fuel: nat, reallocOk: bool)
    returns (stack: PathStack)
    requires list.Valid()
    modifies list, list.files
    ensures stack.Valid() && list.Valid()
    ensures var r := Explore([Item(Truncate(root), rootDepth)], listing, maxDepth, fuel);
      && stack.items == r.1
      && Keeps(list.Contents(), list.count, list.capacity, old(list.Contents()), old(list.count), old(list.capacity),
               r.0, reallocOk)
  {
    stack := new PathStack(root, rootDepth);
    Drain(stack, list, listing, maxDepth, reallocOk, fuel, Explore(stack.items, listing, maxDepth, fuel));
  }

  /** The workers' outer loops, taking turns until the stack is empty or `fuel` listings were made. */
  method Drain(stack: PathStack, list: FileList, listing: Path -> Option<seq<DirEntry>>, maxDepth: int,
               reallocOk: bool, fuel: nat, ghost total: (seq<FileInfo>, seq<Item>))
    requires stack.Valid() && list.Valid()
    requires total == Explore(stack.items, listing, maxDepth, fuel)
    modifies stack, list, list.files
    ensures stack.Valid() && list.Valid()
    ensures stack.items == total.1
    ensures Keeps(list.Contents(), list.count, list.capacity, old(list.Contents()), old(list.count), old(list.capacity),
                  total.0, reallocOk)
  {
    ghost var c0, n0, cap0 := list.Contents(), list.count, list.capacity;
    ghost var found: seq<FileInfo> := [];
    assert found + total.0 == total.0;
    assert list.Contents() == c0 + found[..0];
    var pops := 0;
    while stack.queueSize > 0 && pops < fuel
      invariant pops <= fuel
      invariant list.files == old(list.files) || fresh(list.files)
      invariant Walking(stack, list, listing, maxDepth, reallocOk, fuel - pops, total, found, c0, n0, cap0)
      decreases fuel - pops
    {
      found := WorkerPass(stack, list, listing, maxDepth, reallocOk, fuel - pops, total, found, c0, n0, cap0);
      pops := pops + 1;
    }
    assert found + [] == found;
  }

  /**
    One pass of `worker_thread`'s outer loop: pop the top directory, list it,
    push its subdirectories and append its regular files, as `Explore` does
    for one unit of fuel.
  */
  method WorkerPass(stack: PathStack, list: FileList, listing: Path -> Option<seq<DirEntry>>, maxDepth: int,
                    reallocOk: bool, ghost fuel: nat, ghost total: (seq<FileInfo>, seq<Item>),
                    ghost found: seq<FileInfo>, ghost c0: seq<FileInfo>, ghost n0: nat, ghost cap0: nat)
    returns (ghost found': seq<FileInfo>)
    requires Walking(stack, list, listing, maxDepth, reallocOk, fuel, total, found, c0, n0, cap0)
    requires stack.queueSize > 0 && fuel > 0
    modifies stack, list, list.files
    ensures Walking(stack, list, listing, maxDepth, reallocOk, fuel - 1, total, found', c0, n0, cap0)
    ensures list.files == old(list.files) || fresh(list.files)
  {
    ghost var c, n, cap := list.Contents(), list.count, list.capacity;
    ghost var items := stack.items;
    var current := stack.Pop();
    var entries := listing(current.path);
    ListDirectory(stack, list, current, entries, maxDepth, reallocOk);
    ghost var added := RegularFiles(current, Entries(entries), maxDepth);
    KeepsTrans(c0, n0, cap0, c, n, cap, list.Contents(), list.count, list.capacity, found, added, reallocOk);
    WalkStep(items, listing, maxDepth, fuel, total, found);
    found' := found + added;
  }

  /** `Explore` after one listing, with the files found so far carried along. */
  lemma WalkStep(items: seq<Item>, listing: Path -> Option<seq<DirEntry>>, maxDepth: int, fuel: nat,
                 total: (seq<FileInfo>, seq<Item>), found: seq<FileInfo>)
    requires items != [] && fuel > 0
    requires total == (found + Explore(items, listing, maxDepth, fuel).0, Explore(items, listing, maxDepth, fuel).1)
    ensures var entries := Entries(listing(items[0].path));
      var next := PushedOnto(Subdirs(items[0], entries, maxDepth), items[1..]);
      var rest := Explore(next, listing, maxDepth, fuel - 1);
      total == ((found + RegularFiles(items[0], entries, maxDepth)) + rest.0, rest.1)
  {
    var entries := Entries(listing(items[0].path));
    var next := PushedOnto(Subdirs(items[0], entries, maxDepth), items[1..]);
    var rest := Explore(next, listing, maxDepth, fuel - 1);
    assert found + (RegularFiles(items[0], entries, maxDepth) + rest.0) ==
           (found + RegularFiles(items[0], entries, maxDepth)) + rest.0;
  }
}
