/**
 Directories as sets of names: what creating and removing entries does to them, and when the names of a
 directory stay distinct.
 */
module Namespace {
  import opened Base
  import opened Text
  import opened Names
  import opened Directory
  import opened Tree

  ghost function ShownNames(v: View, d: nat): set<Str>
  {
    set i | d in v.dirs && 0 <= i < |v.dirs[d]| && v.dirs[d][i].Occupied? :: ToStr(v.dirs[d][i].fcb.name)
  }

  predicate HasNames(v: View, d: nat) { d in v.dirs && NamesDistinct(v.dirs[d]) }

  /** An entry shows its name. */
  lemma EntryShows(v: View, l: Loc, f: Fcb)
    requires EntryAt(v, l, f)
    ensures ToStr(f.name) in ShownNames(v, l.dir)
  {
  }

  lemma ShownBy(v: View, d: nat, name: Str) returns (l: Loc, f: Fcb)
    requires name in ShownNames(v, d)
    ensures EntryAt(v, l, f) && l.dir == d && ToStr(f.name) == name
  {
    var i :| d in v.dirs && 0 <= i < |v.dirs[d]| && v.dirs[d][i].Occupied? && ToStr(v.dirs[d][i].fcb.name) == name;
    l, f := Loc(d, i), v.dirs[d][i].fcb;
  }

  /** In a directory with distinct names no two entries show the same one; in any other some two do. */
  lemma NoClash(v: View, l: Loc, f: Fcb, l': Loc, f': Fcb)
    requires HasNames(v, l.dir) && EntryAt(v, l, f) && EntryAt(v, l', f') && l'.dir == l.dir && l != l'
    ensures ToStr(f.name) != ToStr(f'.name)
  {
    hide ToStr;
    assert l.idx < l'.idx || l'.idx < l.idx;
  }

  lemma Clash(v: View, d: nat) returns (l: Loc, f: Fcb, l': Loc, f': Fcb)
    requires d in v.dirs && !HasNames(v, d)
    ensures EntryAt(v, l, f) && EntryAt(v, l', f') && l.dir == d && l'.dir == d && l != l'
    ensures ToStr(f.name) == ToStr(f'.name)
  {
    hide ToStr;
    var i, j :| 0 <= i < j < |v.dirs[d]| && v.dirs[d][i].Occupied? && v.dirs[d][j].Occupied?
      && ToStr(v.dirs[d][i].fcb.name) == ToStr(v.dirs[d][j].fcb.name);
    l, f, l', f' := Loc(d, i), v.dirs[d][i].fcb, Loc(d, j), v.dirs[d][j].fcb;
  }

  /** In a directory with distinct names, lookup succeeds exactly on the names it shows. */
  lemma LookupIsMembership(v: View, d: nat, key: Str)
    requires d in v.dirs
    ensures FindName(v.dirs[d], key, 0).Some? <==> key in ShownNames(v, d)
    ensures HasNames(v, d) ==> forall l, f :: EntryAt(v, l, f) && l.dir == d && ToStr(f.name) == key ==>
      FindName(v.dirs[d], key, 0) == Some(l.idx)
  {
    if key in ShownNames(v, d) {
      var l, f := ShownBy(v, d, key);
      assert Shows(v.dirs[d][l.idx], key);
    }
    if HasNames(v, d) {
      forall l, f | EntryAt(v, l, f) && l.dir == d && ToStr(f.name) == key
        ensures FindName(v.dirs[d], key, 0) == Some(l.idx)
      {
        FindNameIsUnique(v.dirs[d], key, l.idx);
      }
    }
  }

  /** A name can be taken exactly if it can be spelled and no entry of the directory shows it in capitals. */
  lemma CreateCheckIs(v: View, d: nat, name: Str)
    requires d in v.dirs
    ensures CreateCheck(v, d, name) ==
      if !exists base, ext :: Spelled(name, base, ext) then Fail(InvalidName)
      else if ToUpper(name) in ShownNames(v, d) then Fail(InvalidPath)
      else Pass
  {
    hide Spelled, ToStr, TryFrom, ToUpper;
    NameIff(name);
    if Normalize(name).Success? {
      var key := ToUpper(name);
      var i := FindName(v.dirs[d], key, 0);
      if i.Some? { assert EntryAt(v, Loc(d, i.value), v.dirs[d][i.value].fcb); }
      if key in ShownNames(v, d) {
        var l, f := ShownBy(v, d, key);
        assert Shows(v.dirs[d][l.idx], key);
      }
    }
  }

  lemma AgedName(f: Fcb, d: nat, size: nat, later: Stamp)
    ensures Aged(f, d, size, later).name == f.name
  {
  }

  /** Entries of `v'` other than the new one are entries of `v` under the same name. */
  lemma OldEntry(v: View, l: Loc, f: Fcb, later: Stamp, v': View, l1: Loc, f1: Fcb) returns (f0: Fcb)
    requires Added(v, l, f, later, v') && EntryAt(v', l1, f1) && l1 != l
    ensures EntryAt(v, l1, f0) && f0.name == f1.name
  {
    hide Files, DirBytes, Aged;
    assert IsEntry(v', l1);
    f0 := v.dirs[l1.dir][l1.idx].fcb;
    assert EntryAt(v, l1, f0);
    AgedName(f0, l.dir, DirBytes(v', l.dir), later);
  }

  lemma KeptEntry(v: View, l: Loc, f: Fcb, later: Stamp, v': View, l1: Loc, f1: Fcb) returns (f': Fcb)
    requires Added(v, l, f, later, v') && EntryAt(v, l1, f1)
    ensures EntryAt(v', l1, f') && f'.name == f1.name && l1 != l
  {
    hide Files, DirBytes, Aged;
    f' := Aged(f1, l.dir, DirBytes(v', l.dir), later);
    AgedName(f1, l.dir, DirBytes(v', l.dir), later);
    assert IsEntry(v, l1);
  }

  /** Creating an entry adds exactly its stored name to its directory and leaves the other directories' names. */
  lemma AddedNames(v: View, l: Loc, f: Fcb, later: Stamp, v': View, d: nat)
    requires Added(v, l, f, later, v')
    ensures ShownNames(v', d) == ShownNames(v, d) + if d == l.dir then {ToStr(f.name)} else {}
  {
    hide Added, ToStr;
    forall name | name in ShownNames(v', d)
      ensures name in ShownNames(v, d) || (d == l.dir && name == ToStr(f.name))
    {
      var l1, f1 := ShownBy(v', d, name);
      if l1 == l {
        AddedEntry(v, l, f, later, v');
      } else {
        var f0 := OldEntry(v, l, f, later, v', l1, f1);
        EntryShows(v, l1, f0);
      }
    }
    forall name | name in ShownNames(v, d) ensures name in ShownNames(v', d) {
      var l1, f1 := ShownBy(v, d, name);
      var f' := KeptEntry(v, l, f, later, v', l1, f1);
      EntryShows(v', l1, f');
    }
    AddedEntry(v, l, f, later, v');
    EntryShows(v', l, f);
  }

  lemma AddedEntry(v: View, l: Loc, f: Fcb, later: Stamp, v': View)
    requires Added(v, l, f, later, v')
    ensures EntryAt(v', l, f) && !IsEntry(v, l)
    ensures forall d :: d in v.dirs ==> d in v'.dirs
  {
    hide Files;
  }

  /** The names of the directory stay distinct exactly when the stored name was not there yet. */
  lemma AddedDistinct(v: View, l: Loc, f: Fcb, later: Stamp, v': View)
    requires Added(v, l, f, later, v') && l.dir in v.dirs
    ensures HasNames(v', l.dir) <==> HasNames(v, l.dir) && ToStr(f.name) !in ShownNames(v, l.dir)
  {
    hide Added, ToStr, HasNames, ShownNames;
    AddedEntry(v, l, f, later, v');
    if HasNames(v', l.dir) {
      StayDistinct(v, l, f, later, v');
    }
    if HasNames(v, l.dir) && ToStr(f.name) !in ShownNames(v, l.dir) {
      BecomeDistinct(v, l, f, later, v');
    }
  }

  lemma StayDistinct(v: View, l: Loc, f: Fcb, later: Stamp, v': View)
    requires Added(v, l, f, later, v') && l.dir in v.dirs && HasNames(v', l.dir)
    ensures HasNames(v, l.dir) && ToStr(f.name) !in ShownNames(v, l.dir)
  {
    hide Added, ToStr, HasNames, ShownNames;
    AddedEntry(v, l, f, later, v');
    if !HasNames(v, l.dir) {
      var l1, f1, l2, f2 := Clash(v, l.dir);
      var g1 := KeptEntry(v, l, f, later, v', l1, f1);
      var g2 := KeptEntry(v, l, f, later, v', l2, f2);
      NoClash(v', l1, g1, l2, g2);
    }
    if ToStr(f.name) in ShownNames(v, l.dir) {
      var l1, f1 := ShownBy(v, l.dir, ToStr(f.name));
      var g1 := KeptEntry(v, l, f, later, v', l1, f1);
      NoClash(v', l1, g1, l, f);
    }
  }

  lemma BecomeDistinct(v: View, l: Loc, f: Fcb, later: Stamp, v': View)
    requires Added(v, l, f, later, v') && l.dir in v.dirs
    requires HasNames(v, l.dir) && ToStr(f.name) !in ShownNames(v, l.dir)
    ensures HasNames(v', l.dir)
  {
    hide Added, ToStr, HasNames, ShownNames, EntryAt;
    AddedEntry(v, l, f, later, v');
    if !HasNames(v', l.dir) {
      var l1, f1, l2, f2 := Clash(v', l.dir);
      if l1 == l {
        SameEntry(v', l, f, l1, f1);
        var g2 := OldEntry(v, l, f, later, v', l2, f2);
        EntryShows(v, l2, g2);
      } else if l2 == l {
        SameEntry(v', l, f, l2, f2);
        var g1 := OldEntry(v, l, f, later, v', l1, f1);
        EntryShows(v, l1, g1);
      } else {
        var g1 := OldEntry(v, l, f, later, v', l1, f1);
        var g2 := OldEntry(v, l, f, later, v', l2, f2);
        NoClash(v, l1, g1, l2, g2);
      }
    }
  }

  lemma SameEntry(v: View, l: Loc, f: Fcb, l1: Loc, f1: Fcb)
    requires EntryAt(v, l, f) && EntryAt(v, l1, f1)
    ensures l1 == l ==> f1 == f
  {
  }

  /**
   Creating an entry under a name whose base and extension do not end in a space keeps the names distinct,
   and the entry is then found under that name.
   */
  lemma CreateKeepsNames(v: View, l: Loc, name: Str, kind: NodeKind, start: u16, now: Stamp, later: Stamp, v': View)
    requires CreateCheck(v, l.dir, name).Pass? && Untrimmed(name) && HasNames(v, l.dir)
    requires Added(v, l, NewFcb(StoredName(name), kind, start, now), later, v')
    ensures HasNames(v', l.dir)
    ensures Normalize(name).Success? && FindName(v'.dirs[l.dir], Normalize(name).value, 0) == Some(l.idx)
  {
    hide Added, ToStr, ShownNames, Untrimmed, TryFrom;
    var f := NewFcb(StoredName(name), kind, start, now);
    var key := Normalize(name).value;
    StoredNameMatchesKey(name);
    assert ToStr(f.name) == key;
    LookupIsMembership(v, l.dir, key);
    AddedDistinct(v, l, f, later, v');
    AddedEntry(v, l, f, later, v');
    LookupIsMembership(v', l.dir, key);
  }

  /**
   A name whose base or extension ends in a space always passes the check, and is not found afterwards. It makes
   two entries of one name exactly if the name without the spaces was there.
   */
  lemma UntidyName(v: View, l: Loc, name: Str, kind: NodeKind, start: u16, now: Stamp, later: Stamp, v': View)
    requires NamesOk(v) && l.dir in v.dirs && Normalize(name).Success? && !Untrimmed(name)
    requires Added(v, l, NewFcb(StoredName(name), kind, start, now), later, v')
    ensures CreateCheck(v, l.dir, name).Pass? && l.dir in v'.dirs
    ensures FindName(v'.dirs[l.dir], Normalize(name).value, 0).None?
    ensures HasNames(v', l.dir) <==> ToStr(StoredName(name)) !in ShownNames(v, l.dir)
  {
    hide Added, ToStr, TryFrom, Untrimmed, Printable, HasNames;
    var key, f := Normalize(name).value, NewFcb(StoredName(name), kind, start, now);
    UntrimmedUpper(name);
    StoredPrints(name);
    AddedPrints(v, l, f, later, v');
    AddedEntry(v, l, f, later, v');
    if key in ShownNames(v, l.dir) {
      var l1, f1 := ShownBy(v, l.dir, key);
      PrintIsTidy(f1.name);
    }
    if key in ShownNames(v', l.dir) {
      var l1, f1 := ShownBy(v', l.dir, key);
      PrintIsTidy(f1.name);
    }
    LookupIsMembership(v, l.dir, key);
    LookupIsMembership(v', l.dir, key);
    AddedDistinct(v, l, f, later, v');
  }

  /** "A " is not found where "A" is, is stored as "A", and so makes two entries of one name. */
  lemma TrailingSpaceDuplicates(v: View, l: Loc, f: Fcb, later: Stamp, v': View, l': Loc, start: u16, now: Stamp)
    requires EntryAt(v, l, f) && ToStr(f.name) == [65] && l'.dir == l.dir
    requires Added(v, l', NewFcb(StoredName([65, SPACE]), File, start, now), later, v')
    ensures CreateCheck(v, l.dir, [65, SPACE]).Pass? && !HasNames(v', l.dir)
  {
    TrailingSpaceIsLost();
    hide Added, ToStr, TryFrom, Normalize;
    EntryShows(v, l, f);
    if [65, SPACE] in ShownNames(v, l.dir) {
      var l1, f1 := ShownBy(v, l.dir, [65, SPACE]);
      PrintEnds(f1.name);
    }
    LookupIsMembership(v, l.dir, [65, SPACE]);
    AddedDistinct(v, l', NewFcb(StoredName([65, SPACE]), File, start, now), later, v');
  }

  /** Removing an entry removes its name from its directory, keeps the others and keeps names distinct. */
  lemma RemovedNames(v: View, l: Loc, f: Fcb, later: Stamp, v': View, d: nat)
    requires Removed(v, l, f, later, v') && d in v.dirs && HasNames(v, d) && d in v'.dirs
    ensures HasNames(v', d)
    ensures ShownNames(v', d) == ShownNames(v, d) - if d == l.dir then {ToStr(f.name)} else {}
  {
    hide Removed, ToStr, HasNames, EntryAt, IsEntry;
    if !HasNames(v', d) {
      var l1, f1, l2, f2 := Clash(v', d);
      var g1 := LeftEntry(v, l, f, later, v', l1, f1);
      var g2 := LeftEntry(v, l, f, later, v', l2, f2);
      NoClash(v, l1, g1, l2, g2);
    }
    forall name | name in ShownNames(v', d)
      ensures name in ShownNames(v, d) && (d == l.dir ==> name != ToStr(f.name))
    {
      var l1, f1 := ShownBy(v', d, name);
      var f0 := LeftEntry(v, l, f, later, v', l1, f1);
      EntryShows(v, l1, f0);
      RemovedEntry(v, l, f, later, v');
      if d == l.dir { NoClash(v, l, f, l1, f0); }
    }
    forall name | name in ShownNames(v, d) && !(d == l.dir && name == ToStr(f.name))
      ensures name in ShownNames(v', d)
    {
      var l1, f1 := ShownBy(v, d, name);
      if l1 == l { RemovedEntry(v, l, f, later, v'); SameEntry(v, l, f, l1, f1); }
      var f' := StillEntry(v, l, f, later, v', l1, f1);
      EntryShows(v', l1, f');
    }
  }

  lemma RemovedEntry(v: View, l: Loc, f: Fcb, later: Stamp, v': View)
    requires Removed(v, l, f, later, v')
    ensures EntryAt(v, l, f) && !IsEntry(v', l)
  {
    hide Files;
  }

  lemma LeftEntry(v: View, l: Loc, f: Fcb, later: Stamp, v': View, l1: Loc, f1: Fcb) returns (f0: Fcb)
    requires Removed(v, l, f, later, v') && EntryAt(v', l1, f1)
    ensures l1 != l && EntryAt(v, l1, f0) && f0.name == f1.name
  {
    hide Files, DirBytes, Aged;
    assert IsEntry(v', l1);
    f0 := v.dirs[l1.dir][l1.idx].fcb;
    assert EntryAt(v, l1, f0);
    AgedName(f0, l.dir, DirBytes(v', l.dir), later);
  }

  lemma StillEntry(v: View, l: Loc, f: Fcb, later: Stamp, v': View, l1: Loc, f1: Fcb) returns (f': Fcb)
    requires Removed(v, l, f, later, v') && EntryAt(v, l1, f1) && l1 != l
    ensures EntryAt(v', l1, f') && f'.name == f1.name
  {
    hide Files, DirBytes, Aged;
    f' := Aged(f1, l.dir, DirBytes(v', l.dir), later);
    AgedName(f1, l.dir, DirBytes(v', l.dir), later);
  }

  // --- all directories at once --------------------------------------------------------------------------

  /** In every directory the names are distinct; all were made by converting some text. */
  ghost predicate NamesOk(v: View)
  {
    && (forall d :: d in v.dirs ==> HasNames(v, d))
    && (forall l, f :: EntryAt(v, l, f) ==> Printable(f.name))
  }

  lemma EmptyNames(n: nat)
    ensures NamesOk(EmptyView(n))
  {
    hide ToStr;
  }

  lemma AddedElsewhere(v: View, l: Loc, f: Fcb, later: Stamp, v': View, d: nat)
    requires Added(v, l, f, later, v') && NamesOk(v) && d in v'.dirs && d != l.dir
    ensures HasNames(v', d)
  {
    hide Added, ToStr, HasNames, EntryAt;
    if !HasNames(v', d) {
      var l1, f1, l2, f2 := Clash(v', d);
      var g1 := OldEntry(v, l, f, later, v', l1, f1);
      var g2 := OldEntry(v, l, f, later, v', l2, f2);
      EntryHasDir(v, l1, g1);
      NoClash(v, l1, g1, l2, g2);
    }
  }

  lemma EntryHasDir(v: View, l: Loc, f: Fcb)
    requires EntryAt(v, l, f)
    ensures l.dir in v.dirs
  {
  }

  lemma StoredPrints(name: Str)
    requires Normalize(name).Success?
    ensures Printable(StoredName(name))
  {
    hide ToStr, TryFrom;
    NormalizeTwice(name);
    NameRoundTrip(name);
  }

  lemma AddedPrints(v: View, l: Loc, f: Fcb, later: Stamp, v': View)
    requires Added(v, l, f, later, v') && NamesOk(v) && Printable(f.name)
    ensures forall l1, f1 :: EntryAt(v', l1, f1) ==> Printable(f1.name)
  {
    hide Added, HasNames, Printable;
    forall l1, f1 | EntryAt(v', l1, f1) ensures Printable(f1.name) {
      AddedEntry(v, l, f, later, v');
      if l1 == l {
        SameEntry(v', l, f, l1, f1);
      } else {
        var f0 := OldEntry(v, l, f, later, v', l1, f1);
      }
    }
  }

  lemma SlotForIn(v: View, d: nat)
    ensures SlotFor(v, d).dir == d
  {
  }

  /** Creating entries under names without trailing spaces keeps all names distinct. */
  lemma CreateKeepsAllNames(v: View, l: Loc, name: Str, kind: NodeKind, start: u16, now: Stamp, later: Stamp, v': View)
    requires NamesOk(v) && l.dir in v.dirs && CreateCheck(v, l.dir, name).Pass? && Untrimmed(name)
    requires Added(v, l, NewFcb(StoredName(name), kind, start, now), later, v')
    ensures NamesOk(v')
  {
    hide Added, ToStr, HasNames, CreateCheck, Untrimmed;
    CreateKeepsNames(v, l, name, kind, start, now, later, v');
    StoredPrints(name);
    AddedPrints(v, l, NewFcb(StoredName(name), kind, start, now), later, v');
    forall d | d in v'.dirs && d != l.dir ensures HasNames(v', d) {
      AddedElsewhere(v, l, NewFcb(StoredName(name), kind, start, now), later, v', d);
    }
  }

  lemma RemoveKeepsAllNames(v: View, l: Loc, f: Fcb, later: Stamp, v': View)
    requires NamesOk(v) && Removed(v, l, f, later, v')
    ensures NamesOk(v')
  {
    hide ToStr, HasNames, Files, DirBytes, Aged, Lost;
    forall d | d in v'.dirs ensures HasNames(v', d) {
      RemovedNames(v, l, f, later, v', d);
    }
    forall l1, f1 | EntryAt(v', l1, f1) ensures Printable(f1.name) {
      var f0 := LeftEntry(v, l, f, later, v', l1, f1);
    }
  }
}
