/** Short names: nine base and three extension characters, upper case, padded with spaces. */
module Names {
  import opened Base
  import opened Text

  const BASE_SIZE: nat := 9
  const EXT_SIZE: nat := 3

  datatype RawName = RawName(base: Str, ext: Str)

  type ShortName = n: RawName | |n.base| == BASE_SIZE && |n.ext| == EXT_SIZE
    witness RawName(seq(9, _ => 32), seq(3, _ => 32))

  predicate ShortCompatible(c: byte)
  {
    48 <= c <= 57 || 65 <= c <= 90 || 97 <= c <= 122 || c == 95 || c == SPACE
  }

  predicate AllCompatible(s: Str) { forall i :: 0 <= i < |s| ==> ShortCompatible(s[i]) }

  predicate AllSpace(s: Str) { forall i :: 0 <= i < |s| ==> s[i] == SPACE }

  function BufFrom(s: Str, size: nat): (r: Result<Str>)
    ensures r.Success? ==> |r.value| == size
  {
    if |s| > size || !AllCompatible(s) then Failure(InvalidName) else Success(Pad(s, size))
  }

  function FromParts(parts: seq<Str>): Result<ShortName>
    requires parts != []
  {
    if |parts| > 2 then Failure(InvalidName)
    else
      var base := parts[0];
      var ext := if |parts| == 2 then parts[1] else [];
      if !AllCompatible(base + ext) then Failure(InvalidName)
      else
        var b :- BufFrom(base, BASE_SIZE);
        var e :- BufFrom(ext, EXT_SIZE);
        if |parts| == 1 then
          if AllSpace(b) then Failure(InvalidName) else Success(RawName(b, e))
        else
          if AllSpace(e) then Failure(InvalidName) else Success(RawName(b, e))
  }

  function TryFrom(value: Str): Result<ShortName> { FromParts(Split(ToUpper(value), DOT)) }

  function ToStr(n: ShortName): Str
  {
    var base := TrimEnd(n.base);
    var ext := TrimEnd(n.ext);
    if ext == [] then base else base + [DOT] + ext
  }

  function Normalize(component: Str): Result<Str>
  {
    if component == [DOT] || component == [DOT, DOT] || component == [] then Failure(InvalidName)
    else
      var _ :- TryFrom(component);
      Success(ToUpper(component))
  }

  lemma NormalizeError(component: Str)
    ensures Normalize(component).Failure? ==> Normalize(component).error == InvalidName
  {
  }

  /** Neither the base nor the extension ends in a space. */
  predicate Untrimmed(component: Str)
  {
    forall i :: 0 <= i < |Split(component, DOT)| ==> !EndsInSpace(Split(component, DOT)[i])
  }

  /** Neither the name nor what is in front of a dot ends in a blank. */
  lemma {:induction false} UntrimmedIff(name: Str)
    ensures Untrimmed(name) <==>
      && (name != [] ==> name[|name| - 1] != 32)
      && forall i :: 0 <= i < |name| - 1 && name[i] == 32 ==> name[i + 1] != 46
  {
    if name != [] {
      var rest := name[1..];
      UntrimmedIff(rest);
      UntrimmedStep(name);
      assert forall i :: 0 <= i < |rest| - 1 ==> rest[i] == name[i + 1];
      hide Untrimmed;
      if forall i :: 0 <= i < |name| - 1 && name[i] == 32 ==> name[i + 1] != 46 {
        forall i | 0 <= i < |rest| - 1 && rest[i] == 32 ensures rest[i + 1] != 46 {
          assert name[i + 1] == 32 && rest[i + 1] == name[i + 1 + 1];
        }
      }
      if forall i :: 0 <= i < |rest| - 1 && rest[i] == 32 ==> rest[i + 1] != 46 {
        forall i | 0 < i < |name| - 1 && name[i] == 32 ensures name[i + 1] != 46 {
          assert rest[i - 1] == 32 && rest[i - 1 + 1] == name[i + 1];
        }
      }
    }
  }

  /** Only a blank at the end or in front of a dot makes a difference. */
  lemma UntrimmedStep(name: Str)
    requires name != []
    ensures Untrimmed(name) <==> Untrimmed(name[1..]) && (name[0] == 32 ==> |name| > 1 && name[1] != 46)
  {
    var r, p := Split(name[1..], DOT), Split(name, DOT);
    assert p == SplitStep(name[0], DOT, r);
    FirstPart(name[1..]);
    hide Split;
    if name[0] == DOT {
      assert forall i :: 0 < i < |p| ==> p[i] == r[i - 1];
      assert forall i :: 0 <= i < |r| ==> r[i] == p[i + 1];
    } else {
      assert p[0] == [name[0]] + r[0] && forall i :: 0 < i < |p| ==> p[i] == r[i];
      assert EndsInSpace(p[0]) <==> if r[0] == [] then name[0] == 32 else EndsInSpace(r[0]);
    }
  }

  lemma FirstPart(s: Str)
    ensures Split(s, DOT)[0] == [] <==> s == [] || s[0] == 46
  {
  }

  lemma CompatibleHasNoDot(s: Str)
    requires AllCompatible(s)
    ensures DOT !in s
  {
  }

  lemma AllSpaceTrims(s: Str)
    ensures AllSpace(s) <==> TrimEnd(s) == []
  {
    TrimShape(s);
  }

  lemma TrimCompatible(s: Str, n: nat)
    requires AllCompatible(s) && |s| <= n
    ensures AllCompatible(TrimEnd(Pad(s, n))) && |TrimEnd(Pad(s, n))| <= n
  {
    TrimPad(s, n);
    TrimShape(s);
  }

  lemma UpperIdempotent(s: Str)
    ensures ToUpper(ToUpper(s)) == ToUpper(s)
  {
  }

  /** What a successful conversion knows: at most two parts, both padded, the shown ones not blank. */
  lemma FromPartsShape(parts: seq<Str>)
    requires parts != [] && FromParts(parts).Success?
    ensures |parts| <= 2
    ensures var n, ext := FromParts(parts).value, if |parts| == 2 then parts[1] else [];
      && AllCompatible(parts[0]) && AllCompatible(ext) && |parts[0]| <= BASE_SIZE && |ext| <= EXT_SIZE
      && n.base == Pad(parts[0], BASE_SIZE) && n.ext == Pad(ext, EXT_SIZE)
      && (|parts| == 1 ==> TrimEnd(n.base) != [] && TrimEnd(n.ext) == [])
      && (|parts| == 2 ==> TrimEnd(n.ext) != [])
  {
    var ext := if |parts| == 2 then parts[1] else [];
    assert forall i :: 0 <= i < |parts[0]| ==> parts[0][i] == (parts[0] + ext)[i];
    assert forall i :: 0 <= i < |ext| ==> ext[i] == (parts[0] + ext)[|parts[0]| + i];
    AllSpaceTrims(FromParts(parts).value.base);
    AllSpaceTrims(FromParts(parts).value.ext);
  }

  /** Conversely, trimmed parts of the right sizes convert to their padded forms. */
  lemma FromPartsBuild(parts: seq<Str>)
    requires 1 <= |parts| <= 2
    requires forall i :: 0 <= i < |parts| ==> AllCompatible(parts[i])
    requires |parts[0]| <= BASE_SIZE && (|parts| == 2 ==> |parts[1]| <= EXT_SIZE)
    requires TrimEnd(parts[|parts| - 1]) != []
    ensures FromParts(parts) == Success(RawName(Pad(parts[0], BASE_SIZE),
      Pad(if |parts| == 2 then parts[1] else [], EXT_SIZE)))
  {
    var ext := if |parts| == 2 then parts[1] else [];
    TrimPad(parts[0], BASE_SIZE);
    TrimPad(ext, EXT_SIZE);
    AllSpaceTrims(Pad(parts[0], BASE_SIZE));
    AllSpaceTrims(Pad(ext, EXT_SIZE));
  }

  // --- which names there are ------------------------------------------------------------------------

  /** Digits (48 to 57), letters (65 to 90, 97 to 122), underscore (95) and blank (32). */
  predicate NameText(s: Str)
  {
    forall i :: 0 <= i < |s| ==> 48 <= s[i] <= 57 || 65 <= s[i] <= 90 || 97 <= s[i] <= 122 || s[i] == 95 || s[i] == 32
  }

  /** A base, or a base and an extension behind a dot (46); what comes last is not blank. */
  predicate Spelled(name: Str, base: Str, ext: Option<Str>)
  {
    && name == base + (if ext.Some? then [46] + ext.value else [])
    && NameText(base) && |base| <= 9
    && (ext.Some? ==> NameText(ext.value) && |ext.value| <= 3)
    && !Blanks(if ext.Some? then ext.value else base)
  }

  predicate Blanks(s: Str) { forall i :: 0 <= i < |s| ==> s[i] == 32 }

  /** The `i`-th character in capitals, or a blank behind the end. */
  function CapitalAt(s: Str, i: nat): byte
  {
    if i >= |s| then 32 else if 97 <= s[i] <= 122 then s[i] - 32 else s[i]
  }

  lemma UpperAt(s: Str)
    ensures |ToUpper(s)| == |s| && forall i :: 0 <= i < |s| ==> ToUpper(s)[i] == CapitalAt(s, i)
    ensures AllCompatible(s) <==> NameText(s)
    ensures AllCompatible(ToUpper(s)) <==> NameText(s)
    ensures AllSpace(ToUpper(s)) <==> Blanks(s)
  {
    assert AllSpace(ToUpper(s)) ==> forall i :: 0 <= i < |s| ==> s[i] == ToUpper(s)[i];
    assert forall i :: 0 <= i < |s| ==> (ShortCompatible(ToUpper(s)[i]) <==> ShortCompatible(s[i]));
  }

  lemma UpperDotted(base: Str, ext: Str)
    ensures ToUpper(base + [DOT] + ext) == ToUpper(base) + [DOT] + ToUpper(ext)
  {
  }

  /** The parts of a name in capitals are the capitals of its parts. */
  lemma SpelledParts(name: Str, base: Str, ext: Option<Str>)
    requires name == base + (if ext.Some? then [46] + ext.value else [])
    requires NameText(base) && (ext.Some? ==> NameText(ext.value))
    ensures Split(ToUpper(name), DOT) == [ToUpper(base)] + if ext.Some? then [ToUpper(ext.value)] else []
  {
    hide NameText, Split, AllCompatible, ToUpper;
    UpperAt(base);
    CompatibleHasNoDot(ToUpper(base));
    SplitNone(ToUpper(base), DOT);
    if ext.Some? {
      UpperAt(ext.value);
      CompatibleHasNoDot(ToUpper(ext.value));
      SplitNone(ToUpper(ext.value), DOT);
      SplitConcat(ToUpper(base), DOT, ToUpper(ext.value));
      UpperDotted(base, ext.value);
      assert name == base + [DOT] + ext.value;
    } else {
      assert name == base;
    }
  }

  /** A name that can be spelled so is accepted, and stored in capitals and filled up with blanks. */
  lemma SpelledName(name: Str, base: Str, ext: Option<Str>)
    requires Spelled(name, base, ext)
    ensures Normalize(name).Success? && TryFrom(name).Success?
    ensures var n := TryFrom(name).value;
      && |n.base| == 9 && (forall i :: 0 <= i < 9 ==> n.base[i] == CapitalAt(base, i))
      && |n.ext| == 3 && (forall i :: 0 <= i < 3 ==> n.ext[i] == CapitalAt(if ext.Some? then ext.value else [], i))
  {
    hide Split, FromParts, TrimEnd, NameText;
    SpelledParts(name, base, ext);
    var e := if ext.Some? then ext.value else [];
    UpperAt(base);
    UpperAt(e);
    AllSpaceTrims(ToUpper(if ext.Some? then e else base));
    FromPartsBuild(Split(ToUpper(name), DOT));
    NoDotNames(name, base, ext);
  }

  lemma NoDotNames(name: Str, base: Str, ext: Option<Str>)
    requires Spelled(name, base, ext)
    ensures name !in {[], [46], [46, 46]}
  {
    if ext.Some? {
      assert name[|base|] == 46;
      if base == [] { assert name[1] == ext.value[0]; }
    } else {
      assert name == base;
    }
  }

  /** The names that are accepted, exactly. */
  lemma NameIff(name: Str)
    ensures Normalize(name).Success? <==> exists base, ext :: Spelled(name, base, ext)
  {
    hide Spelled, Split, FromParts;
    if Normalize(name).Success? {
      var parts := Split(name, DOT);
      var ext := if |parts| == 2 then Some(parts[1]) else None;
      SplitUpper(name, DOT);
      JoinSplit(name, DOT);
      SpelledBack(name, parts, ext);
      assert Spelled(name, parts[0], ext);
    }
    if base, ext :| Spelled(name, base, ext) { SpelledName(name, base, ext); }
  }

  lemma SpelledBack(name: Str, parts: seq<Str>, ext: Option<Str>)
    requires parts != [] && Join(parts, DOT) == name && |Split(ToUpper(name), DOT)| == |parts|
    requires forall i :: 0 <= i < |parts| ==> Split(ToUpper(name), DOT)[i] == ToUpper(parts[i])
    requires TryFrom(name).Success? && ext == if |parts| == 2 then Some(parts[1]) else None
    ensures Spelled(name, parts[0], ext)
  {
    hide Split, Join, FromParts, TrimEnd, NameText, AllCompatible, AllSpace, Blanks, Pad, ToUpper;
    FromPartsShape(Split(ToUpper(name), DOT));
    JoinFew(parts, DOT);
    var e := if ext.Some? then ext.value else [];
    UpperAt(parts[0]);
    UpperAt(e);
    assert ToUpper([]) == [] by { UpperAt([]); }
    TrimPad(ToUpper(parts[0]), BASE_SIZE);
    TrimPad(ToUpper(e), EXT_SIZE);
    AllSpaceTrims(ToUpper(parts[0]));
    AllSpaceTrims(ToUpper(e));
  }

  /** The same text but for the case of letters. */
  predicate SameLetters(a: Str, b: Str)
  {
    |a| == |b| && forall i :: 0 <= i < |a| ==>
      a[i] == b[i] || (97 <= a[i] <= 122 && b[i] == a[i] - 32) || (97 <= b[i] <= 122 && a[i] == b[i] - 32)
  }

  /** Two names that are accepted mean the same exactly if they differ in the case of letters only. */
  lemma NamesMeet(a: Str, b: Str)
    ensures ToUpper(a) == ToUpper(b) <==> SameLetters(a, b)
    ensures SameLetters(a, b) ==> Normalize(a) == Normalize(b) && TryFrom(a) == TryFrom(b)
    ensures Normalize(a).Success? && Normalize(b).Success? ==> (Normalize(a) == Normalize(b) <==> SameLetters(a, b))
  {
    hide FromParts, Split;
    if ToUpper(a) == ToUpper(b) {
      forall i | 0 <= i < |a| ensures Upper(a[i]) == Upper(b[i]) { assert ToUpper(a)[i] == ToUpper(b)[i]; }
    }
    if SameLetters(a, b) {
      assert ToUpper(a) == ToUpper(b);
      assert |a| == 1 ==> a == [a[0]] && b == [b[0]];
      assert |a| == 2 ==> a == [a[0], a[1]] && b == [b[0], b[1]];
    }
  }

  /** Printing a converted name and converting the print gives the same name back. */
  lemma NameRoundTrip(value: Str)
    requires TryFrom(value).Success?
    ensures TryFrom(ToStr(TryFrom(value).value)) == TryFrom(value)
  {
    hide Split, FromParts, TrimEnd, Pad, AllCompatible;
    var parts := Split(ToUpper(value), DOT);
    var n := TryFrom(value).value;
    FromPartsShape(parts);
    var base, ext := TrimEnd(n.base), TrimEnd(n.ext);
    TrimCompatible(parts[0], BASE_SIZE);
    TrimCompatible(if |parts| == 2 then parts[1] else [], EXT_SIZE);
    PadTrim(n.base);
    PadTrim(n.ext);
    TrimShape(n.base);
    TrimShape(n.ext);
    PartsOfPrint(value, n, base, ext);
    var parts' := if ext == [] then [base] else [base, ext];
    TrimTwice(n.base);
    TrimTwice(n.ext);
    FromPartsBuild(parts');
    assert Pad(ext, EXT_SIZE) == n.ext;
  }

  /** A name that converting made: its print converts back to it. */
  predicate Printable(n: ShortName) { TryFrom(ToStr(n)) == Success(n) }

  /** The print of such a name is a proper key: upper case, no dot names, no slash. */
  lemma PrintIsKey(n: ShortName)
    requires Printable(n)
    ensures Normalize(ToStr(n)) == Success(ToStr(n)) && ToUpper(ToStr(n)) == ToStr(n) && SLASH !in ToStr(n)
    ensures ToStr(n) != [] && ToStr(n) != [DOT] && ToStr(n) != [DOT, DOT]
  {
    var s := ToStr(n);
    var base, ext := TrimEnd(n.base), TrimEnd(n.ext);
    PartsOfPrint(s, n, base, ext);
    FromPartsShape(Split(ToUpper(s), DOT));
    CompatibleHasNoDot(base);
    CompatibleHasNoDot(ext);
    hide Split, FromParts, Pad, TrimEnd, ToUpper;
  }

  /** No print ends in a space. */
  lemma PrintEnds(n: ShortName)
    ensures !EndsInSpace(ToStr(n))
  {
    TrimShape(n.base);
    TrimShape(n.ext);
  }

  /** In the print of a name that converting made neither base nor extension ends in a space. */
  lemma PrintIsTidy(n: ShortName)
    requires Printable(n)
    ensures Untrimmed(ToStr(n))
  {
    hide Split, TrimEnd;
    PartsOfPrint(ToStr(n), n, TrimEnd(n.base), TrimEnd(n.ext));
    TrimShape(n.base);
    TrimShape(n.ext);
    hide ToStr;
  }

  lemma TrimTwice(s: Str)
    ensures TrimEnd(TrimEnd(s)) == TrimEnd(s)
  {
    TrimShape(s);
  }

  /** The print of a converted name is upper case and splits into its trimmed parts. */
  lemma PartsOfPrint(value: Str, n: ShortName, base: Str, ext: Str)
    requires TryFrom(value) == Success(n)
    requires base == TrimEnd(n.base) && ext == TrimEnd(n.ext)
    ensures Split(ToUpper(ToStr(n)), DOT) == if ext == [] then [base] else [base, ext]
    ensures ToUpper(ToStr(n)) == ToStr(n)
  {
    var upper := ToUpper(value);
    var parts := Split(upper, DOT);
    FromPartsShape(parts);
    var e := if |parts| == 2 then parts[1] else [];
    SplitUpper(value, DOT);
    TrimPad(parts[0], BASE_SIZE);
    TrimPad(e, EXT_SIZE);
    hide Split, FromParts, Pad, TrimEnd;
    TrimShape(parts[0]);
    TrimShape(e);
    CompatibleHasNoDot(base);
    CompatibleHasNoDot(ext);
    UpperPrefix(Split(value, DOT)[0], base);
    if |parts| == 2 { UpperPrefix(Split(value, DOT)[1], ext); }
    TwoParts(base, ext);
  }

  lemma TwoParts(base: Str, ext: Str)
    requires ToUpper(base) == base && ToUpper(ext) == ext && DOT !in base && DOT !in ext
    ensures Split(base, DOT) == [base]
    ensures Split(base + [DOT] + ext, DOT) == [base, ext]
    ensures ToUpper(base + [DOT] + ext) == base + [DOT] + ext
  {
    SplitNone(base, DOT);
    SplitNone(ext, DOT);
    SplitConcat(base, DOT, ext);
    hide Split;
    UpperDotted(base, ext);
  }

  lemma UpperPrefix(s: Str, p: Str)
    requires |p| <= |s| && p == ToUpper(s)[..|p|]
    ensures ToUpper(p) == p
  {
    forall i | 0 <= i < |p| ensures ToUpper(p)[i] == p[i] {
      assert p[i] == Upper(s[i]);
    }
  }

  /**
   An entry created under a name is found again under that name exactly when neither its base nor its
   extension ends in a space: lookup compares the trimmed stored name with the untrimmed key.
   */
  lemma StoredNameMatchesKey(component: Str)
    requires Normalize(component).Success?
    ensures TryFrom(Normalize(component).value) == TryFrom(component)
    ensures ToStr(TryFrom(component).value) == Normalize(component).value <==> Untrimmed(component)
  {
    var key := ToUpper(component);
    UpperIdempotent(component);
    var parts := Split(key, DOT);
    UntrimmedUpper(component);
    FromPartsShape(parts);
    var e := if |parts| == 2 then parts[1] else [];
    TrimPad(parts[0], BASE_SIZE);
    TrimPad(e, EXT_SIZE);
    TrimFix(parts[0]);
    TrimFix(e);
    JoinSplit(key, DOT);
    UntrimmedParts(key, parts);
    assert key == if |parts| == 2 then parts[0] + [DOT] + parts[1] else parts[0];
    hide Split, FromParts, Pad, TrimEnd, Untrimmed;
  }

  lemma TrimFix(s: Str)
    ensures TrimEnd(s) == s <==> !EndsInSpace(s)
    ensures |TrimEnd(s)| == |s| <==> !EndsInSpace(s)
    ensures |TrimEnd(s)| <= |s|
  {
    TrimShape(s);
  }

  lemma UntrimmedParts(key: Str, parts: seq<Str>)
    requires parts == Split(key, DOT) && |parts| <= 2
    ensures Untrimmed(key) <==> !EndsInSpace(parts[0]) && (|parts| == 2 ==> !EndsInSpace(parts[1]))
  {
  }

  lemma UntrimmedUpper(component: Str)
    ensures Untrimmed(ToUpper(component)) <==> Untrimmed(component)
  {
    SplitUpper(component, DOT);
    var p, q := Split(component, DOT), Split(ToUpper(component), DOT);
    forall i | 0 <= i < |p| ensures EndsInSpace(p[i]) <==> EndsInSpace(q[i]) {
      if p[i] != [] { assert q[i][|q[i]| - 1] == Upper(p[i][|p[i]| - 1]); }
    }
  }

  /** "A " is accepted as a name, is stored as "A", and is not found under "A ". */
  lemma TrailingSpaceIsLost()
    ensures Normalize([65, SPACE]) == Success([65, SPACE])
    ensures TryFrom([65, SPACE]).Success? && ToStr(TryFrom([65, SPACE]).value) == [65]
  {
    var s: Str := [65, SPACE];
    assert ToUpper(s) == s;
    SplitNone(s, DOT);
    assert s[..1] == [65];
    assert TrimEnd(s) == [65] && TrimEnd([]) == [];
    FromPartsBuild([s]);
    TrimPad(s, BASE_SIZE);
    TrimPad([], EXT_SIZE);
  }

  /** A stored name never starts with a byte that marks a slot unused (0) or deleted (0xE5). */
  lemma StoredNameIsNoMark(value: Str)
    requires TryFrom(value).Success?
    ensures TryFrom(value).value.base[0] !in {0, 0xE5}
  {
    var parts := Split(ToUpper(value), DOT);
    FromPartsShape(parts);
    if parts[0] != [] { assert ShortCompatible(parts[0][0]); }
  }

  /** Normalizing is idempotent, and the name that gets stored does not depend on how often it was done. */
  lemma NormalizeTwice(component: Str)
    requires Normalize(component).Success?
    ensures var key := Normalize(component).value;
      Normalize(key) == Success(key) && TryFrom(key) == TryFrom(component) && TryFrom(component).Success?
  {
    UpperIdempotent(component);
    var key := ToUpper(component);
    assert |key| == |component|;
    assert forall i :: 0 <= i < |component| ==> (key[i] == DOT <==> component[i] == DOT);
    hide FromParts, Split;
  }
}
