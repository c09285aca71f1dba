/**
  The string operations the keyboard view relies on: Python's `str.lower`,
  `str.upper` on one character, the `in` substring test and `str.split(sep)`.

  Case mapping covers ASCII letters and the letters of the Latin-1 Supplement
  block (U+00C0..U+00DE paired with U+00E0..U+00FE, the multiplication and
  division signs excluded); every other character maps to itself. This is
  exactly Python's mapping on every character that occurs in the layouts.
 */
module Text {

  predicate IsUpperLetter(c: char) {
    ('A' <= c <= 'Z') || ('\U{C0}' <= c <= '\U{DE}' && c != '\U{D7}')
  }

  predicate IsLowerLetter(c: char) {
    ('a' <= c <= 'z') || ('\U{E0}' <= c <= '\U{FE}' && c != '\U{F7}')
  }

  /** Python's `c.lower()` on the characters described above. */
  function LowerChar(c: char): (r: char)
    ensures !IsUpperLetter(r)
    ensures IsUpperLetter(c) ==> IsLowerLetter(r) && r as int == c as int + 32
    ensures !IsUpperLetter(c) ==> r == c
  {
    if IsUpperLetter(c) then (c as int + 32) as char else c
  }

  /** Python's `c.upper()` on the characters described above. */
  function UpperChar(c: char): (r: char)
    ensures !IsLowerLetter(r)
    ensures IsLowerLetter(c) ==> IsUpperLetter(r) && r as int == c as int - 32
    ensures !IsLowerLetter(c) ==> r == c
  {
    if IsLowerLetter(c) then (c as int - 32) as char else c
  }

  /** Python's `s.lower()`. */
  function Lower(s: string): (r: string)
    ensures |r| == |s|
    ensures forall i :: 0 <= i < |s| ==> r[i] == LowerChar(s[i])
  {
    seq(|s|, i requires 0 <= i < |s| => LowerChar(s[i]))
  }

  /** `s[0].upper() + s[1:].lower()`: the capitalised form of a non-empty label. */
  function Capitalize(s: string): (r: string)
    requires |s| > 0
    ensures |r| == |s|
    ensures r[0] == UpperChar(s[0])
    ensures r[1..] == Lower(s[1..])
  {
    [UpperChar(s[0])] + Lower(s[1..])
  }

  /** Lower-casing twice changes nothing more: the result holds no upper-case letter. */
  lemma LowerIsIdempotent(s: string)
    ensures Lower(Lower(s)) == Lower(s)
  {
    forall i | 0 <= i < |s|
      ensures Lower(Lower(s))[i] == Lower(s)[i]
    {
      assert !IsUpperLetter(Lower(s)[i]);
    }
  }

  /** Capitalising changes case only: the capitalised label lower-cases to the label lower-cased. */
  lemma CapitalizeIgnoresCase(s: string)
    requires |s| > 0
    ensures Lower(Capitalize(s)) == Lower(s)
  {
    var c := Capitalize(s);
    forall i | 0 <= i < |s|
      ensures Lower(c)[i] == Lower(s)[i]
    {
      if i == 0 {
        assert IsLowerLetter(s[0]) ==> !IsUpperLetter(s[0]);
      } else {
        assert c[i] == Lower(s[1..])[i - 1] == LowerChar(s[i]);
      }
    }
  }

  /** `sub` occurs in `s` starting at offset `i`. */
  predicate OccursAt(s: string, sub: string, i: int) {
    0 <= i <= |s| - |sub| && s[i..i + |sub|] == sub
  }

  /** Python's `sub in s` for strings: `sub` occurs in `s` at some offset. */
  predicate Contains(s: string, sub: string) {
    exists i | 0 <= i <= |s| - |sub| :: OccursAt(s, sub, i)
  }

  /**
    `sub` cannot occur in `s` when its `j`-th character is absent from the
    window of `s` where that character would have to be.
   */
  lemma NotContainsByWindow(s: string, sub: string, j: nat)
    requires j < |sub| <= |s|
    requires sub[j] !in s[j..|s| - |sub| + j + 1]
    ensures !Contains(s, sub)
  {
    forall i | 0 <= i <= |s| - |sub| ensures !OccursAt(s, sub, i) {
      assert s[j..|s| - |sub| + j + 1][i] == s[i + j];
      assert s[i..i + |sub|][j] != sub[j];
    }
  }

  /** Inverse of `Split`: the parts glued back together with `sep` between them. */
  function Join(parts: seq<string>, sep: char): string
    requires |parts| > 0
  {
    if |parts| == 1 then parts[0] else parts[0] + [sep] + Join(parts[1..], sep)
  }

  /**
    Python's `s.split(sep)` for a one-character separator: always at least one
    part (`"".split(",") == [""]`), empty parts kept, no part holding `sep`.
    `JoinSplit` and `SplitJoin` show it is the inverse of `Join`.
   */
  function Split(s: string, sep: char): (parts: seq<string>)
    ensures |parts| > 0
    ensures forall k :: 0 <= k < |parts| ==> sep !in parts[k]
    decreases |s|
  {
    if s == [] then [[]]
    else
      var rest := Split(s[1..], sep);
      if s[0] == sep then
        [[]] + rest
      else
        [[s[0]] + rest[0]] + rest[1..]
  }

  /** Joining the parts of a split gives back the original string. */
  lemma {:induction false} JoinSplit(s: string, sep: char)
    ensures Join(Split(s, sep), sep) == s
    decreases |s|
  {
    if s != [] {
      var rest := Split(s[1..], sep);
      JoinSplit(s[1..], sep);
      assert s == [s[0]] + s[1..];
      if s[0] != sep && |rest| > 1 {
        assert ([[s[0]] + rest[0]] + rest[1..])[1..] == rest[1..];
      }
    }
  }

  /** Splitting a string that starts with the separator: an empty first part. */
  lemma SplitSeparatorFirst(s: string, sep: char)
    ensures Split([sep] + s, sep) == [[]] + Split(s, sep)
  {
    assert ([sep] + s)[1..] == s;
  }

  /** Splitting a string that starts with another character: it opens the first part. */
  lemma SplitOtherFirst(c: char, s: string, sep: char)
    requires c != sep
    ensures Split([c] + s, sep) == [[c] + Split(s, sep)[0]] + Split(s, sep)[1..]
  {
    assert ([c] + s)[1..] == s;
  }

  /** Joining parts whose first part is not empty: its first character leads. */
  lemma JoinFirstChar(parts: seq<string>, sep: char)
    requires |parts| > 0 && |parts[0]| > 0
    ensures Join(parts, sep) == [parts[0][0]] + Join([parts[0][1..]] + parts[1..], sep)
  {
    var p := parts[0];
    var parts' := [p[1..]] + parts[1..];
    assert parts'[1..] == parts[1..];
    assert p == [p[0]] + p[1..];
  }

  /** The other round trip: splitting parts that hold no separator gives them back. */
  lemma {:induction false} SplitJoin(parts: seq<string>, sep: char)
    requires |parts| > 0
    requires forall k :: 0 <= k < |parts| ==> sep !in parts[k]
    ensures Split(Join(parts, sep), sep) == parts
    decreases |parts|, |parts[0]|
  {
    var p := parts[0];
    if p == [] {
      if |parts| > 1 {
        SplitJoin(parts[1..], sep);
        SplitSeparatorFirst(Join(parts[1..], sep), sep);
        assert parts == [[]] + parts[1..];
      }
    } else {
      var parts' := [p[1..]] + parts[1..];
      forall k | 0 <= k < |parts'| ensures sep !in parts'[k] {
        if k > 0 {
          assert parts'[k] == parts[k];
        }
      }
      SplitJoin(parts', sep);
      JoinFirstChar(parts, sep);
      SplitOtherFirst(p[0], Join(parts', sep), sep);
      assert [p[0]] + p[1..] == p;
      assert parts == [p] + parts'[1..];
    }
  }

  /** Joining two non-empty lists of parts puts one separator between their joins. */
  lemma {:induction false} JoinAppend(p: seq<string>, q: seq<string>, sep: char)
    requires |p| > 0 && |q| > 0
    ensures Join(p + q, sep) == Join(p, sep) + [sep] + Join(q, sep)
    decreases |p|
  {
    assert (p + q)[0] == p[0];
    if |p| > 1 {
      assert (p + q)[1..] == p[1..] + q;
      JoinAppend(p[1..], q, sep);
    } else {
      assert (p + q)[1..] == q;
    }
  }

  /** Splitting on `sep` distributes over a `sep` placed between two strings. */
  lemma SplitAppend(a: string, b: string, sep: char)
    ensures Split(a + [sep] + b, sep) == Split(a, sep) + Split(b, sep)
  {
    var pa, pb := Split(a, sep), Split(b, sep);
    JoinSplit(a, sep);
    JoinSplit(b, sep);
    JoinAppend(pa, pb, sep);
    PartsWithoutSeparator(pa, pb, sep);
    SplitJoin(pa + pb, sep);
  }

  /** Two lists of parts free of the separator stay free of it once concatenated. */
  lemma PartsWithoutSeparator(pa: seq<string>, pb: seq<string>, sep: char)
    requires forall k :: 0 <= k < |pa| ==> sep !in pa[k]
    requires forall k :: 0 <= k < |pb| ==> sep !in pb[k]
    ensures forall k :: 0 <= k < |pa + pb| ==> sep !in (pa + pb)[k]
  {
    forall k | 0 <= k < |pa + pb| ensures sep !in (pa + pb)[k] {
      if k < |pa| { assert (pa + pb)[k] == pa[k]; } else { assert (pa + pb)[k] == pb[k - |pa|]; }
    }
  }

  /** A string without the separator splits into itself alone. */
  lemma SplitWithoutSeparator(s: string, sep: char)
    requires sep !in s
    ensures Split(s, sep) == [s]
  {
    SplitJoin([s], sep);
  }
}
