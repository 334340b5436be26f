/**
 * File discovery and directory listing, with the file system replaced by
 * values: what a path resolves to, the items a recursive glob finds under a
 * directory, and the directory tree that a listing walks.
 *
 * Lower-casing is ASCII-only here, and names are compared character by
 * character by code point, as string comparison does.
 */
module Parser {

  datatype Option<T> = None | Some(value: T)

  // ---------------------------------------------------------------------------
  // Characters and strings

  function LowerChar(c: char): char
  {
    if 'A' <= c <= 'Z' then (c as int + 32) as char else c
  }

  function Lower(s: string): string
  {
    seq(|s|, i requires 0 <= i < |s| => LowerChar(s[i]))
  }

  predicate IsAsciiLetter(c: char)
  {
    'a' <= c <= 'z' || 'A' <= c <= 'Z'
  }

  /** Lexicographic order on strings: a prefix comes first, else the first differing character decides. */
  predicate StrLe(a: string, b: string)
    decreases |a|
  {
    a == [] || (b != [] && (a[0] < b[0] || (a[0] == b[0] && StrLe(a[1..], b[1..]))))
  }

  lemma {:induction false} StrLeTotal(a: string, b: string)
    ensures StrLe(a, b) || StrLe(b, a)
    decreases |a|
  {
    if a != [] && b != [] && a[0] == b[0] {
      StrLeTotal(a[1..], b[1..]);
    }
  }

  lemma {:induction false} StrLeTransitive(a: string, b: string, c: string)
    requires StrLe(a, b) && StrLe(b, c)
    ensures StrLe(a, c)
    decreases |a|
  {
    if a != [] && a[0] == b[0] && b[0] == c[0] {
      StrLeTransitive(a[1..], b[1..], c[1..]);
    }
  }

  // ---------------------------------------------------------------------------
  // Discovering files under a directory

  /** One item of the recursive glob, in glob order. */
  datatype Found = Found(path: string, isFile: bool, suffix: string)

  /** What the requested path resolves to. */
  datatype PathState = Missing | NotADirectory | Directory(found: seq<Found>)

  datatype ParseError = FileNotFoundError | NotADirectoryError | ValueError

  datatype Result<T> = Ok(value: T) | Err(error: ParseError)

  /** xs can be obtained from ys by deleting elements. */
  predicate IsSubsequence<T(==)>(xs: seq<T>, ys: seq<T>)
    decreases ys
  {
    if ys == [] then xs == []
    else (xs != [] && xs[0] == ys[0] && IsSubsequence(xs[1..], ys[1..])) || IsSubsequence(xs, ys[1..])
  }

  /**
   * The pattern an include extension must match at its start: a dot, then
   * one or more ASCII letters.  Anything may follow the matched prefix.
   */
  ghost predicate MatchesExtensionPattern(ext: string)
  {
    exists n :: PatternMatchesPrefix(ext, n)
  }

  /** The first n characters of ext are a dot followed by ASCII letters only. */
  predicate PatternMatchesPrefix(ext: string, n: int)
  {
    2 <= n <= |ext| && ext[0] == '.' && forall i :: 1 <= i < n ==> IsAsciiLetter(ext[i])
  }

  /** The check as computed: the prefix match needs only the dot and one letter. */
  predicate ValidExtension(ext: string)
  {
    |ext| >= 2 && ext[0] == '.' && IsAsciiLetter(ext[1])
  }

  lemma ValidExtensionIsPatternMatch(ext: string)
    ensures ValidExtension(ext) <==> MatchesExtensionPattern(ext)
  {
    if ValidExtension(ext) {
      assert PatternMatchesPrefix(ext, 2);
    }
    if MatchesExtensionPattern(ext) {
      var n :| PatternMatchesPrefix(ext, n);
      assert IsAsciiLetter(ext[1]);
    }
  }

  lemma ExtensionExamples()
    ensures ValidExtension(".py") && ValidExtension(".PY") && ValidExtension(".py3")
    ensures !ValidExtension("py") && !ValidExtension(".") && !ValidExtension(".3py") && !ValidExtension("")
  {
  }

  /** An include list filters only when it is given and non-empty. */
  predicate Filters(includes: Option<seq<string>>)
  {
    includes.Some? && includes.value != []
  }

  function LowerSet(exts: seq<string>): set<string>
  {
    set e | e in exts :: Lower(e)
  }

  /** The regular files among the found items, in glob order. */
  function RegularFiles(found: seq<Found>): (r: seq<Found>)
    ensures forall f :: f in r <==> f in found && f.isFile
    ensures forall f :: multiset(r)[f] == if f.isFile then multiset(found)[f] else 0
    ensures IsSubsequence(r, found)
    decreases found
  {
    if found == [] then []
    else
      assert found == [found[0]] + found[1..];
      if found[0].isFile then [found[0]] + RegularFiles(found[1..])
      else RegularFiles(found[1..])
  }

  /** The files whose lower-cased suffix is one of exts, in order. */
  function WithSuffixIn(files: seq<Found>, exts: set<string>): (r: seq<Found>)
    ensures forall f :: f in r <==> f in files && Lower(f.suffix) in exts
    ensures forall f :: multiset(r)[f] == if Lower(f.suffix) in exts then multiset(files)[f] else 0
    ensures IsSubsequence(r, files)
    decreases files
  {
    if files == [] then []
    else
      assert files == [files[0]] + files[1..];
      if Lower(files[0].suffix) in exts then [files[0]] + WithSuffixIn(files[1..], exts)
      else WithSuffixIn(files[1..], exts)
  }

  lemma {:induction false} SubsequenceTransitive<T>(xs: seq<T>, ys: seq<T>, zs: seq<T>)
    requires IsSubsequence(xs, ys) && IsSubsequence(ys, zs)
    ensures IsSubsequence(xs, zs)
    decreases zs
  {
    if zs == [] {
    } else if ys != [] && ys[0] == zs[0] && IsSubsequence(ys[1..], zs[1..]) {
      if xs != [] && xs[0] == ys[0] && IsSubsequence(xs[1..], ys[1..]) {
        SubsequenceTransitive(xs[1..], ys[1..], zs[1..]);
      } else {
        SubsequenceTransitive(xs, ys[1..], zs[1..]);
      }
    } else {
      SubsequenceTransitive(xs, ys, zs[1..]);
    }
  }

  /** A found item that the listing keeps: a regular file, with an included suffix when filtering. */
  predicate Kept(f: Found, includes: Option<seq<string>>)
  {
    f.isFile && (Filters(includes) ==> Lower(f.suffix) in LowerSet(includes.value))
  }

  /**
   * List the files under a directory: a missing path and a path that is not
   * a directory are errors, checked in that order; a non-empty include list
   * must consist of valid extensions and then keeps the files whose suffix
   * matches one of them, ignoring case.
   */
  function ParseDirectory(target: PathState, includes: Option<seq<string>>): (r: Result<seq<Found>>)
    ensures target.Missing? ==> r == Err(FileNotFoundError)
    ensures target.NotADirectory? ==> r == Err(NotADirectoryError)
    ensures r == Err(ValueError) <==>
      target.Directory? && Filters(includes) && exists e :: e in includes.value && !ValidExtension(e)
    ensures r.Ok? ==> target.Directory? && IsSubsequence(r.value, target.found)
    ensures r.Ok? <==>
      target.Directory? && (Filters(includes) ==> forall e :: e in includes.value ==> ValidExtension(e))
    ensures r.Ok? ==> forall f :: f in r.value <==> f in target.found && Kept(f, includes)
    ensures r.Ok? ==> forall f :: multiset(r.value)[f] == if Kept(f, includes) then multiset(target.found)[f] else 0
  {
    match target
    case Missing => Err(FileNotFoundError)
    case NotADirectory => Err(NotADirectoryError)
    case Directory(found) =>
      var files := RegularFiles(found);
      if Filters(includes) then
        if !(forall e :: e in includes.value ==> ValidExtension(e)) then Err(ValueError)
        else
          var kept := WithSuffixIn(files, LowerSet(includes.value));
          SubsequenceTransitive(kept, files, found);
          Ok(kept)
      else Ok(files)
  }

  // ---------------------------------------------------------------------------
  // Listing a directory tree

  datatype Entry = DirEntry(dir: DirTree) | FileEntry(name: string, size: nat)

  datatype DirTree = DirTree(name: string, entries: seq<Entry>)

  function EntryName(e: Entry): string
  {
    match e
    case DirEntry(d) => d.name
    case FileEntry(name, _) => name
  }

  predicate Hidden(name: string)
  {
    |name| > 0 && name[0] == '.'
  }

  /** The sort key (is a file, lower-cased name) compared as a pair; false sorts before true. */
  predicate KeyLe(aFile: bool, aName: string, bFile: bool, bName: string)
  {
    (!aFile && bFile) || (aFile == bFile && StrLe(Lower(aName), Lower(bName)))
  }

  predicate EntryLe(a: Entry, b: Entry)
  {
    KeyLe(a.FileEntry?, EntryName(a), b.FileEntry?, EntryName(b))
  }

  lemma EntryLeTotal(a: Entry, b: Entry)
    ensures EntryLe(a, b) || EntryLe(b, a)
  {
    StrLeTotal(Lower(EntryName(a)), Lower(EntryName(b)));
  }

  lemma EntryLeTransitive(a: Entry, b: Entry, c: Entry)
    requires EntryLe(a, b) && EntryLe(b, c)
    ensures EntryLe(a, c)
  {
    if a.FileEntry? == b.FileEntry? == c.FileEntry? {
      StrLeTransitive(Lower(EntryName(a)), Lower(EntryName(b)), Lower(EntryName(c)));
    }
  }

  predicate SortedEntries(es: seq<Entry>)
  {
    forall i, j :: 0 <= i < j < |es| ==> EntryLe(es[i], es[j])
  }

  lemma ConsSorted(y: Entry, t: seq<Entry>)
    requires SortedEntries(t)
    requires forall z :: z in t ==> EntryLe(y, z)
    ensures SortedEntries([y] + t)
  {
    var r := [y] + t;
    forall i, j | 0 <= i < j < |r| ensures EntryLe(r[i], r[j]) {
      if i == 0 {
        assert r[j] == t[j - 1];
        assert t[j - 1] in t;
      } else {
        assert r[i] == t[i - 1] && r[j] == t[j - 1];
      }
    }
  }

  /** x may go in front of a sorted sequence whose head it does not exceed. */
  lemma SortedInFront(x: Entry, s: seq<Entry>)
    requires SortedEntries(s) && s != [] && EntryLe(x, s[0])
    ensures SortedEntries([x] + s)
  {
    forall z | z in s ensures EntryLe(x, z) {
      var k :| 0 <= k < |s| && s[k] == z;
      if k > 0 { EntryLeTransitive(x, s[0], z); }
    }
    ConsSorted(x, s);
  }

  /** The head of s may stay in front of x inserted into the rest of s. */
  lemma SortedBehind(x: Entry, s: seq<Entry>, rest: seq<Entry>)
    requires SortedEntries(s) && s != [] && !EntryLe(x, s[0])
    requires SortedEntries(rest) && forall z :: z in rest ==> z == x || z in s[1..]
    ensures SortedEntries([s[0]] + rest)
  {
    EntryLeTotal(x, s[0]);
    forall z | z in rest ensures EntryLe(s[0], z) {
      if z != x {
        var k :| 0 <= k < |s[1..]| && s[1..][k] == z;
        assert s[k + 1] == z;
      }
    }
    ConsSorted(s[0], rest);
  }

  /** Insert x before the first element whose key is not below x's. */
  function Insert(x: Entry, s: seq<Entry>): (r: seq<Entry>)
    requires SortedEntries(s)
    ensures SortedEntries(r)
    ensures multiset(r) == multiset(s) + multiset{x}
    ensures forall z :: z in r <==> z == x || z in s
    decreases s
  {
    if s == [] then [x]
    else if EntryLe(x, s[0]) then
      SortedInFront(x, s);
      [x] + s
    else
      assert s == [s[0]] + s[1..];
      SortedHead(s);
      var rest := Insert(x, s[1..]);
      SortedBehind(x, s, rest);
      [s[0]] + rest
  }

  /** A stable insertion sort on the key: directories first, then by lower-cased name. */
  function SortEntries(es: seq<Entry>): (r: seq<Entry>)
    ensures SortedEntries(r)
    ensures multiset(r) == multiset(es)
    ensures forall z :: z in r <==> z in es
    decreases es
  {
    if es == [] then []
    else
      assert es == [es[0]] + es[1..];
      Insert(es[0], SortEntries(es[1..]))
  }

  // ---------------------------------------------------------------------------
  // The rendered tree

  datatype Label = DirLabel(name: string) | FileLabel(name: string, size: nat)

  /** A finished node of the rendered tree. */
  datatype Item = Item(title: Label, children: seq<Item>)

  /** A directory becomes a branch holding its own listing; a file a leaf labelled with its size. */
  function Render(e: Entry): Item
    decreases e, 2
  {
    match e
    case DirEntry(d) => Item(DirLabel(d.name), Listing(d))
    case FileEntry(name, size) => Item(FileLabel(name, size), [])
  }

  /** What a walk adds under a directory: its entries in key order, hidden ones skipped. */
  function Listing(d: DirTree): seq<Item>
    decreases d, 1
  {
    RenderVisible(d, SortEntries(d.entries))
  }

  function RenderVisible(d: DirTree, es: seq<Entry>): seq<Item>
    requires forall e :: e in es ==> e in d.entries
    decreases d, 0, es
  {
    if es == [] then []
    else
      assert es[0] in d.entries;
      (if Hidden(EntryName(es[0])) then [] else [Render(es[0])]) + RenderVisible(d, es[1..])
  }

  predicate ItemLe(a: Item, b: Item)
  {
    KeyLe(a.title.FileLabel?, a.title.name, b.title.FileLabel?, b.title.name)
  }

  /** No item at any depth carries a hidden name. */
  predicate NoHidden(items: seq<Item>)
    decreases items
  {
    forall i :: 0 <= i < |items| ==> !Hidden(items[i].title.name) && NoHidden(items[i].children)
  }

  lemma {:induction false} RenderVisibleSorted(d: DirTree, es: seq<Entry>)
    requires forall e :: e in es ==> e in d.entries
    requires SortedEntries(es)
    ensures forall i, j :: 0 <= i < j < |RenderVisible(d, es)| ==>
      ItemLe(RenderVisible(d, es)[i], RenderVisible(d, es)[j])
    decreases es
  {
    if es != [] {
      var rest := RenderVisible(d, es[1..]);
      SortedHead(es);
      RenderVisibleSorted(d, es[1..]);
      RenderVisibleAbove(d, es[1..], es[0]);
      if !Hidden(EntryName(es[0])) {
        var r := RenderVisible(d, es);
        assert r == [Render(es[0])] + rest;
        forall i, j | 0 <= i < j < |r| ensures ItemLe(r[i], r[j]) {
          assert r[j] == rest[j - 1] && rest[j - 1] in rest;
          if i > 0 {
            assert r[i] == rest[i - 1];
          }
        }
      }
    }
  }

  /** The head of a sorted sequence is below all of its tail, and the tail is sorted. */
  lemma SortedHead(es: seq<Entry>)
    requires SortedEntries(es) && es != []
    ensures SortedEntries(es[1..])
    ensures forall e :: e in es[1..] ==> EntryLe(es[0], e)
  {
    forall e | e in es[1..] ensures EntryLe(es[0], e) {
      var k :| 0 <= k < |es[1..]| && es[1..][k] == e;
      assert es[k + 1] == e;
    }
  }

  /** Every item rendered from entries above x is above x's rendering. */
  lemma {:induction false} RenderVisibleAbove(d: DirTree, es: seq<Entry>, x: Entry)
    requires forall e :: e in es ==> e in d.entries
    requires forall e :: e in es ==> EntryLe(x, e)
    ensures forall it :: it in RenderVisible(d, es) ==> ItemLe(Render(x), it)
    decreases es
  {
    if es != [] {
      assert es[0] in es;
      assert forall e :: e in es[1..] ==> e in es;
      RenderVisibleAbove(d, es[1..], x);
      RenderKey(x);
      RenderKey(es[0]);
    }
  }

  /** A rendered entry keeps the entry's sort key. */
  lemma RenderKey(e: Entry)
    ensures Render(e).title.FileLabel? == e.FileEntry? && Render(e).title.name == EntryName(e)
  {
  }

  /** Directories come before files; within each group lower-cased names never decrease. */
  lemma ListingOrder(d: DirTree)
    ensures forall i, j :: 0 <= i < j < |Listing(d)| ==>
      (Listing(d)[i].title.FileLabel? ==> Listing(d)[j].title.FileLabel?)
    ensures forall i, j :: (0 <= i < j < |Listing(d)| &&
      Listing(d)[i].title.FileLabel? == Listing(d)[j].title.FileLabel?) ==>
      StrLe(Lower(Listing(d)[i].title.name), Lower(Listing(d)[j].title.name))
  {
    RenderVisibleSorted(d, SortEntries(d.entries));
  }

  lemma {:induction false} ListingNoHidden(d: DirTree)
    ensures NoHidden(Listing(d))
    decreases d, 1
  {
    RenderVisibleNoHidden(d, SortEntries(d.entries));
  }

  lemma {:induction false} RenderVisibleNoHidden(d: DirTree, es: seq<Entry>)
    requires forall e :: e in es ==> e in d.entries
    ensures NoHidden(RenderVisible(d, es))
    decreases d, 0, es
  {
    if es != [] {
      RenderVisibleNoHidden(d, es[1..]);
      var rest := RenderVisible(d, es[1..]);
      if !Hidden(EntryName(es[0])) {
        var head := Render(es[0]);
        if es[0].DirEntry? {
          assert es[0] in d.entries;
          ListingNoHidden(es[0].dir);
        }
        assert NoHidden(head.children);
        var r := [head] + rest;
        assert r == RenderVisible(d, es);
        forall i | 0 <= i < |r| ensures !Hidden(r[i].title.name) && NoHidden(r[i].children) {
          if i > 0 { assert r[i] == rest[i - 1]; }
        }
      }
    }
  }

  /** Rendering distributes over a leading entry. */
  lemma RenderVisibleCons(d: DirTree, y: Entry, t: seq<Entry>)
    requires y in d.entries && forall e :: e in t ==> e in d.entries
    ensures RenderVisible(d, [y] + t) == RenderVisible(d, [y]) + RenderVisible(d, t)
  {
    assert ([y] + t)[1..] == t;
    assert [y][1..] == [];
  }

  lemma RenderVisibleAt(d: DirTree, es: seq<Entry>, i: nat)
    requires i < |es| && forall e :: e in es ==> e in d.entries
    ensures RenderVisible(d, es[i..]) ==
      (if Hidden(EntryName(es[i])) then [] else [Render(es[i])]) + RenderVisible(d, es[i + 1..])
  {
    assert es[i..][1..] == es[i + 1..];
  }

  lemma {:induction false} InsertRendered(d: DirTree, x: Entry, s: seq<Entry>)
    requires x in d.entries && forall e :: e in s ==> e in d.entries
    requires SortedEntries(s)
    ensures multiset(RenderVisible(d, Insert(x, s))) == multiset(RenderVisible(d, [x])) + multiset(RenderVisible(d, s))
    decreases s
  {
    if s == [] {
    } else if EntryLe(x, s[0]) {
      RenderVisibleCons(d, x, s);
    } else {
      var rest := Insert(x, s[1..]);
      assert Insert(x, s) == [s[0]] + rest;
      assert s == [s[0]] + s[1..];
      InsertRendered(d, x, s[1..]);
      RenderVisibleCons(d, s[0], rest);
      RenderVisibleCons(d, s[0], s[1..]);
      MultisetRegroup(RenderVisible(d, [s[0]]), RenderVisible(d, rest),
        RenderVisible(d, [x]), RenderVisible(d, s[1..]));
    }
  }

  lemma MultisetRegroup<T>(h: seq<T>, r: seq<T>, x: seq<T>, t: seq<T>)
    requires multiset(r) == multiset(x) + multiset(t)
    ensures multiset(h + r) == multiset(x) + multiset(h + t)
  {
  }

  lemma {:induction false} SortRendered(d: DirTree, es: seq<Entry>)
    requires forall e :: e in es ==> e in d.entries
    ensures multiset(RenderVisible(d, SortEntries(es))) == multiset(RenderVisible(d, es))
    decreases es
  {
    if es != [] {
      SortRendered(d, es[1..]);
      InsertRendered(d, es[0], SortEntries(es[1..]));
    }
  }

  /** Every visible entry is rendered exactly once, and nothing else is. */
  lemma ListingIsVisibleEntries(d: DirTree)
    ensures multiset(Listing(d)) == multiset(RenderVisible(d, d.entries))
  {
    SortRendered(d, d.entries);
  }

  /** The rendered tree being built; children are finished items. */
  class Tree {
    const title: Label
    var children: seq<Item>

    constructor (title: Label)
      ensures this.title == title && children == []
    {
      this.title := title;
      children := [];
    }

    method Add(item: Item)
      modifies this
      ensures children == old(children) + [item]
    {
      children := children + [item];
    }

    function Snapshot(): Item
      reads this
    {
      Item(title, children)
    }
  }

  lemma SuffixWithin(d: DirTree, es: seq<Entry>, i: nat)
    requires i <= |es| && forall e :: e in es ==> e in d.entries
    ensures forall e :: e in es[i..] ==> e in d.entries
  {
  }

  /**
   * One step of the walk keeps its invariant: the rendering of the next entry
   * (nothing if it is hidden) moves from the pending listing to the tree.
   */
  lemma WalkStep(d: DirTree, paths: seq<Entry>, i: nat, before: seq<Item>, after: seq<Item>, goal: seq<Item>)
    requires i < |paths| && forall e :: e in paths ==> e in d.entries
    requires before + RenderVisible(d, paths[i..]) == goal
    requires after == before + (if Hidden(EntryName(paths[i])) then [] else [Render(paths[i])])
    ensures after + RenderVisible(d, paths[i + 1..]) == goal
  {
    SuffixWithin(d, paths, i);
    SuffixWithin(d, paths, i + 1);
    RenderVisibleAt(d, paths, i);
    Regroup(before, if Hidden(EntryName(paths[i])) then [] else [Render(paths[i])], RenderVisible(d, paths[i + 1..]));
  }

  lemma Regroup<T>(a: seq<T>, b: seq<T>, c: seq<T>)
    ensures a + (b + c) == (a + b) + c
  {
  }

  /** Add the rendering of one visible entry: a filled branch for a directory, a leaf for a file. */
  method AddEntry(path: Entry, tree: Tree)
    modifies tree
    ensures tree.children == old(tree.children) + [Render(path)]
    decreases path, 1
  {
    match path {
      case DirEntry(sub) =>
        var branch := new Tree(DirLabel(sub.name));
        WalkDirectory(sub, branch);
        assert branch.Snapshot() == Render(path);
        tree.Add(branch.Snapshot());
      case FileEntry(name, size) =>
        tree.Add(Item(FileLabel(name, size), []));
    }
  }

  /**
   * Walk a directory: sort its entries by key, directories first and then by
   * lower-cased name, and add them to the tree in that order.
   */
  method WalkDirectory(d: DirTree, tree: Tree)
    modifies tree
    ensures tree.children == old(tree.children) + Listing(d)
    decreases d, 1
  {
    var paths := SortEntries(d.entries);
    WalkEntries(d, paths, tree);
  }

  /**
   * The loop of a walk over entries already in key order: a hidden entry is
   * skipped, a directory gets a branch that is filled by walking it, a file
   * gets a leaf.
   */
  method WalkEntries(d: DirTree, paths: seq<Entry>, tree: Tree)
    requires forall e :: e in paths ==> e in d.entries
    modifies tree
    ensures tree.children == old(tree.children) + RenderVisible(d, paths)
    decreases d, 0
  {
    ghost var goal := tree.children + RenderVisible(d, paths);
    var i := 0;
    assert paths[0..] == paths;
    while i < |paths|
      invariant 0 <= i <= |paths|
      invariant tree.children + RenderVisible(d, paths[i..]) == goal
    {
      var path := paths[i];
      ghost var before := tree.children;
      SuffixWithin(d, paths, i + 1);
      if !Hidden(EntryName(path)) {
        assert path in d.entries;
        AddEntry(path, tree);
      }
      WalkStep(d, paths, i, before, tree.children, goal);
      i := i + 1;
    }
    assert paths[i..] == [];
  }
}
