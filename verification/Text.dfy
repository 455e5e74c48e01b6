/** Splitting and joining text. Strings are byte sequences (UTF-8). */
module Text {
  import opened Base

  type Str = seq<byte>

  const SPACE: byte := 32
  const DOT: byte := 46
  const SLASH: byte := 47

  /** The stretches between separators; always at least one. */
  function Split<T(==)>(s: seq<T>, sep: T): (r: seq<seq<T>>)
    ensures r != []
  {
    if s == [] then [[]]
    else
      SplitStep(s[0], sep, Split(s[1..], sep))
  }

  /** Puts one more character in front of split text. */
  function SplitStep<T(==)>(c: T, sep: T, rest: seq<seq<T>>): (r: seq<seq<T>>)
    requires rest != []
    ensures r != []
  {
    if c == sep then [[]] + rest else [[c] + rest[0]] + rest[1..]
  }

  function Join<T>(parts: seq<seq<T>>, sep: T): seq<T>
    requires parts != []
  {
    if |parts| == 1 then parts[0] else parts[0] + [sep] + Join(parts[1..], sep)
  }

  lemma JoinFew<T>(parts: seq<seq<T>>, sep: T)
    ensures |parts| == 1 ==> Join(parts, sep) == parts[0]
    ensures |parts| == 2 ==> Join(parts, sep) == parts[0] + [sep] + parts[1]
  {
    if |parts| == 2 { assert parts[1..] == [parts[1]]; }
  }

  lemma {:induction false} SplitNone<T>(s: seq<T>, sep: T)
    requires sep !in s
    ensures Split(s, sep) == [s]
  {
    if s != [] {
      SplitNone(s[1..], sep);
      assert [s[0]] + s[1..] == s;
    }
  }

  /** A separator splits the text into independently split halves. */
  lemma {:induction false} SplitConcat<T>(a: seq<T>, sep: T, b: seq<T>)
    ensures Split(a + [sep] + b, sep) == Split(a, sep) + Split(b, sep)
  {
    var s := a + [sep] + b;
    if a == [] {
      assert s[1..] == b;
    } else {
      SplitConcat(a[1..], sep, b);
      assert s[1..] == a[1..] + [sep] + b;
      StepConcat(a[0], sep, Split(a[1..], sep), Split(b, sep));
    }
  }

  lemma StepConcat<T>(c: T, sep: T, ra: seq<seq<T>>, rb: seq<seq<T>>)
    requires ra != []
    ensures SplitStep(c, sep, ra + rb) == SplitStep(c, sep, ra) + rb
  {
    assert (ra + rb)[1..] == ra[1..] + rb;
  }

  lemma {:induction false} SplitClean<T>(s: seq<T>, sep: T)
    ensures forall i :: 0 <= i < |Split(s, sep)| ==> sep !in Split(s, sep)[i]
  {
    if s != [] {
      SplitClean(s[1..], sep);
    }
  }

  lemma {:induction false} JoinSplit<T>(s: seq<T>, sep: T)
    ensures Join(Split(s, sep), sep) == s
  {
    if s != [] {
      JoinSplit(s[1..], sep);
      var r := Split(s[1..], sep);
      if s[0] == sep {
        assert ([[]] + r)[1..] == r;
      } else {
        assert ([[s[0]] + r[0]] + r[1..])[1..] == r[1..];
        if |r| > 1 {
          assert [s[0]] + r[0] + [sep] + Join(r[1..], sep) == [s[0]] + (r[0] + [sep] + Join(r[1..], sep));
        }
      }
    }
  }

  lemma {:induction false} SplitJoin<T>(parts: seq<seq<T>>, sep: T)
    requires parts != []
    requires forall i :: 0 <= i < |parts| ==> sep !in parts[i]
    ensures Split(Join(parts, sep), sep) == parts
  {
    SplitNone(parts[0], sep);
    if |parts| > 1 {
      SplitJoin(parts[1..], sep);
      SplitConcat(parts[0], sep, Join(parts[1..], sep));
    }
  }

  function Upper(c: byte): byte { if 97 <= c <= 122 then c - 32 else c }

  function ToUpper(s: Str): Str { seq(|s|, i requires 0 <= i < |s| => Upper(s[i])) }

  /** Upper-casing commutes with splitting at a character that is not a letter. */
  lemma {:induction false} SplitUpper(s: Str, sep: byte)
    requires sep < 65
    ensures |Split(ToUpper(s), sep)| == |Split(s, sep)|
    ensures forall i :: 0 <= i < |Split(s, sep)| ==> Split(ToUpper(s), sep)[i] == ToUpper(Split(s, sep)[i])
  {
    if s != [] {
      SplitUpper(s[1..], sep);
      assert ToUpper(s)[1..] == ToUpper(s[1..]);
      var r, u := Split(s[1..], sep), Split(ToUpper(s[1..]), sep);
      assert Split(s, sep) == SplitStep(s[0], sep, r) && Split(ToUpper(s), sep) == SplitStep(Upper(s[0]), sep, u);
      hide Split;
      assert ToUpper([s[0]] + r[0]) == [Upper(s[0])] + ToUpper(r[0]);
    }
  }

  function TrimEnd(s: Str): Str
  {
    if s != [] && s[|s| - 1] == SPACE then TrimEnd(s[..|s| - 1]) else s
  }

  predicate EndsInSpace(s: Str) { s != [] && s[|s| - 1] == SPACE }

  function Pad(s: Str, n: nat): Str { if |s| < n then s + seq(n - |s|, _ => SPACE) else s }

  lemma {:induction false} TrimShape(s: Str)
    ensures |TrimEnd(s)| <= |s| && TrimEnd(s) == s[..|TrimEnd(s)|]
    ensures forall i :: |TrimEnd(s)| <= i < |s| ==> s[i] == SPACE
    ensures !EndsInSpace(TrimEnd(s))
  {
    if EndsInSpace(s) {
      TrimShape(s[..|s| - 1]);
    }
  }

  /** Trimming what was padded trims the original. */
  lemma {:induction false} TrimPad(s: Str, n: nat)
    ensures TrimEnd(Pad(s, n)) == TrimEnd(s)
    decreases n
  {
    if |s| < n {
      var p := Pad(s, n);
      assert EndsInSpace(p);
      TrimPad(s, n - 1);
      assert p[..|p| - 1] == Pad(s, n - 1);
    }
  }

  lemma PadTrim(s: Str)
    ensures Pad(TrimEnd(s), |s|) == s
  {
    TrimShape(s);
  }
}
