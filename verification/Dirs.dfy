/**
  Directories: dirlookup and dirlink of kernel/fs.c, and the inode table as directories see it.
  The contents of an inode are given in units of struct dirent, for a file too.
 */
module Dirs {
  const DIRSIZ := 14
  const ROOT := 1

  datatype Option<T> = None | Some(value: T)

  /** What a name field can hold: at most DIRSIZ characters other than NUL. */
  type Name = s: string | |s| <= DIRSIZ && '\0' !in s

  datatype Entry = Entry(inum: nat, name: Name)   // inum 0 marks a free entry

  datatype Kind = Free | File | Dir

  datatype Node = Node(kind: Kind, nlink: int, ents: seq<Entry>)

  const FREE := Node(Free, 0, [])

  predicate Live(e: Entry) { e.inum != 0 }

  predicate Names(e: Entry, name: string) { Live(e) && e.name == name }

  predicate Allocated(nodes: seq<Node>, i: int) {
    0 <= i < |nodes| && !nodes[i].kind.Free?
  }

  predicate IsDir(nodes: seq<Node>, d: int) {
    0 <= d < |nodes| && nodes[d].kind.Dir?
  }

  // ----- The raw field

  // The C string in a name field: up to the first NUL.
  function CName(raw: string): (s: string)
    ensures |s| <= |raw| && '\0' !in s && s == raw[..|s|] && (|s| < |raw| ==> raw[|s|] == '\0')
  {
    if raw == "" || raw[0] == '\0' then "" else [raw[0]] + CName(raw[1..])
  }

  // strncpy into a name field
  function Pad(name: Name): (raw: string)
    ensures |raw| == DIRSIZ && raw[..|name|] == name && forall i :: |name| <= i < DIRSIZ ==> raw[i] == '\0'
  {
    name + seq(DIRSIZ - |name|, _ => '\0')
  }

  lemma {:induction false} CNamePrefix(raw: string, n: nat)
    requires n <= |raw| && '\0' !in raw[..n] && (n < |raw| ==> raw[n] == '\0')
    ensures CName(raw) == raw[..n]
  {
    if n > 0 {
      assert raw[0] in raw[..n];
      assert raw[1..][..n - 1] == raw[..n][1..];
      CNamePrefix(raw[1..], n - 1);
    }
  }

  /** A field that strncpy has filled reads back as the name. */
  lemma CNamePad(name: Name)
    ensures CName(Pad(name)) == name
  {
    CNamePrefix(Pad(name), |name|);
  }

  // namecmp: strncmp over at most DIRSIZ characters, the first argument ending with a NUL.
  method NameCmp(name: Name, raw: string) returns (eq: bool)
    requires |raw| == DIRSIZ
    ensures eq <==> CName(raw) == name
  {
    var n := 0;
    while n < DIRSIZ && n < |name| && name[n] == raw[n]
      invariant 0 <= n <= |name| && raw[..n] == name[..n]
    {
      n := n + 1;
    }
    eq := n == DIRSIZ || (if n < |name| then name[n] else '\0') == raw[n];
    if eq { CNamePrefix(raw, n); }
  }

  // ----- Looking up a name

  // What a directory binds a name to: the first live entry with that name.
  function Lookup(ents: seq<Entry>, name: string): (r: Option<nat>)
    ensures r.Some? ==> r.value != 0
  {
    if ents == [] then None
    else if Names(ents[0], name) then Some(ents[0].inum)
    else Lookup(ents[1..], name)
  }

  lemma {:induction false} LookupFirst(ents: seq<Entry>, name: string, k: nat)
    requires k < |ents| && Names(ents[k], name) && forall i :: 0 <= i < k ==> !Names(ents[i], name)
    ensures Lookup(ents, name) == Some(ents[k].inum)
  {
    if k > 0 {
      LookupFirst(ents[1..], name, k - 1);
    }
  }

  lemma {:induction false} LookupNone(ents: seq<Entry>, name: string)
    ensures Lookup(ents, name) == None <==> forall i :: 0 <= i < |ents| ==> !Names(ents[i], name)
  {
    if ents != [] {
      LookupNone(ents[1..], name);
      assert forall i :: 1 <= i < |ents| ==> ents[i] == ents[1..][i - 1];
    }
  }

  /** dirlookup: what the directory binds the name to, and where. */
  method DirLookup(ents: seq<Entry>, name: Name) returns (r: Option<nat>, off: nat)
    ensures r == Lookup(ents, name)
    ensures r.Some? ==> off < |ents| && Names(ents[off], name) && r.value == ents[off].inum
    ensures r.None? ==> forall i :: 0 <= i < |ents| ==> !Names(ents[i], name)
  {
    off := 0;
    while off < |ents|
      invariant 0 <= off <= |ents|
      invariant forall i :: 0 <= i < off ==> !Names(ents[i], name)
    {
      if ents[off].inum != 0 {
        CNamePad(ents[off].name);
        var same := NameCmp(name, Pad(ents[off].name));
        if same {
          LookupFirst(ents, name, off);
          return Some(ents[off].inum), off;
        }
      }
      off := off + 1;
    }
    LookupNone(ents, name);
    r := None;
  }

  // ----- Entering a name

  // A free entry, or the end of the directory.
  predicate Slot(ents: seq<Entry>, off: nat) {
    off <= |ents| && (off < |ents| ==> !Live(ents[off]))
  }

  function Bind(ents: seq<Entry>, off: nat, e: Entry): (r: seq<Entry>)
    requires off <= |ents|
    ensures |r| >= |ents| && |r| > off && r[off] == e && forall k :: 0 <= k < |ents| && k != off ==> r[k] == ents[k]
  {
    if off < |ents| then ents[off := e] else ents + [e]
  }

  /**
    dirlink: a new binding is refused if the name is taken or there is no space, and otherwise
    goes into the first free entry.
   */
  method DirLink(ents: seq<Entry>, name: Name, inum: nat, full: bool) returns (ok: bool, ents': seq<Entry>, off: nat)
    ensures ok <==> Lookup(ents, name) == None && !full
    ensures !ok ==> ents' == ents
    ensures ok ==> Slot(ents, off) && ents' == Bind(ents, off, Entry(inum, name))
    ensures ok ==> forall i :: 0 <= i < off ==> Live(ents[i])
  {
    var found;
    found, off := DirLookup(ents, name);
    if found.Some? { return false, ents, off; }
    off := 0;
    while off < |ents| && ents[off].inum != 0
      invariant 0 <= off <= |ents| && forall i :: 0 <= i < off ==> Live(ents[i])
    {
      off := off + 1;
    }
    if full { return false, ents, off; }
    CNamePad(name);
    return true, Bind(ents, off, Entry(inum, CName(Pad(name)))), off;
  }

  // What skipelem takes off a path.
  predicate Element(name: string) { |name| > 0 && '/' !in name }

  // Live entries have proper, distinct names.
  ghost predicate GoodNames(ents: seq<Entry>) {
    && (forall i :: 0 <= i < |ents| && Live(ents[i]) ==> Element(ents[i].name))
    && (forall i, j :: 0 <= i < j < |ents| && Live(ents[i]) && Live(ents[j]) ==> ents[i].name != ents[j].name)
  }

  /** Every directory is good. */
  ghost predicate WellNamed(nodes: seq<Node>) {
    forall d :: IsDir(nodes, d) ==> GoodNames(nodes[d].ents)
  }

  /** In a good directory every live entry is found under its name. */
  lemma LookupIs(ents: seq<Entry>, k: nat)
    requires GoodNames(ents) && k < |ents| && Live(ents[k])
    ensures Lookup(ents, ents[k].name) == Some(ents[k].inum)
  {
    LookupFirst(ents, ents[k].name, k);
  }

  /** A new binding changes the meaning of its own name alone, and keeps names distinct. */
  lemma BindIsLocal(ents: seq<Entry>, off: nat, e: Entry, other: string)
    requires Slot(ents, off) && Live(e) && Lookup(ents, e.name) == None
    ensures Lookup(Bind(ents, off, e), other) == if other == e.name then Some(e.inum) else Lookup(ents, other)
    ensures GoodNames(ents) && Element(e.name) ==> GoodNames(Bind(ents, off, e))
  {
    LookupNone(ents, e.name);
    var ents' := Bind(ents, off, e);
    assert forall i :: 0 <= i < |ents'| && i != off ==> ents'[i] == ents[i];
    if other == e.name {
      LookupFirst(ents', other, off);
    } else if off < |ents| {
      LookupUpdate(ents, off, e, other);
    } else {
      LookupAppend(ents, e, other);
    }
  }

  lemma {:induction false} LookupUpdate(ents: seq<Entry>, off: nat, e: Entry, other: string)
    requires off < |ents| && !Names(ents[off], other) && !Names(e, other)
    ensures Lookup(ents[off := e], other) == Lookup(ents, other)
  {
    if off > 0 {
      assert ents[off := e][1..] == ents[1..][off - 1 := e];
      LookupUpdate(ents[1..], off - 1, e, other);
    } else {
      assert ents[off := e][1..] == ents[1..];
    }
  }

  lemma {:induction false} LookupAppend(ents: seq<Entry>, e: Entry, other: string)
    requires !Names(e, other)
    ensures Lookup(ents + [e], other) == Lookup(ents, other)
  {
    if ents != [] {
      assert (ents + [e])[1..] == ents[1..] + [e];
      LookupAppend(ents[1..], e, other);
    } else {
      assert ents + [e] == [e] && [e][1..] == [];
    }
  }
}
