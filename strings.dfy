/** The Python `str` operations the batch runner uses, `str.split(sep)`
    with a literal separator and `str.strip()`, together with
    `sep.join(parts)`, which the model uses to put split lines back
    together. */
module Strings {

  /** Python's whitespace on `str`: the characters `str.isspace`,
      `str.strip()` and the regular-expression class `\s` accept. */
  predicate IsSpace(c: char) {
    || '\t' <= c <= '\r'             // tab, line feed, vertical tab, form feed, carriage return
    || '\U{1C}' <= c <= ' '           // file, group, record and unit separators, space
    || c == '\U{85}' || c == '\U{A0}' || c == '\U{1680}'
    || '\U{2000}' <= c <= '\U{200A}'
    || c == '\U{2028}' || c == '\U{2029}' || c == '\U{202F}' || c == '\U{205F}' || c == '\U{3000}'
  }

  /** Every character of `s` is whitespace (the empty string included). */
  predicate Blank(s: string) {
    forall i :: 0 <= i < |s| ==> IsSpace(s[i])
  }

  /** The index of the first non-whitespace character of `s`, or `|s|`. */
  function TextStart(s: string): (i: nat)
    ensures i <= |s|
    ensures forall j :: 0 <= j < i ==> IsSpace(s[j])
    ensures i < |s| ==> !IsSpace(s[i])
  {
    if s == [] || !IsSpace(s[0]) then 0 else 1 + TextStart(s[1..])
  }

  /** One past the index of the last non-whitespace character of `s`, or 0. */
  function TextEnd(s: string): (j: nat)
    ensures j <= |s|
    ensures forall m :: j <= m < |s| ==> IsSpace(s[m])
    ensures j > 0 ==> !IsSpace(s[j - 1])
  {
    if s == [] || !IsSpace(s[|s| - 1]) then |s| else TextEnd(s[..|s| - 1])
  }

  /** The text starts at the first character that is not whitespace. */
  lemma {:induction false} TextStartAt(s: string, i: nat)
    requires i < |s| && !IsSpace(s[i])
    requires forall j :: 0 <= j < i ==> IsSpace(s[j])
    ensures TextStart(s) == i
    decreases i
  {
    if i > 0 {
      TextStartAt(s[1..], i - 1);
    }
  }

  /** The text ends after the last character that is not whitespace. */
  lemma {:induction false} TextEndAt(s: string, j: nat)
    requires 0 < j <= |s| && !IsSpace(s[j - 1])
    requires forall m :: j <= m < |s| ==> IsSpace(s[m])
    ensures TextEnd(s) == j
    decreases |s| - j
  {
    if j < |s| {
      TextEndAt(s[..|s| - 1], j);
    }
  }

  /** `s.strip()`: `s` without its leading and trailing whitespace. The
      result neither starts nor ends with whitespace, is empty exactly when
      `s` is blank, and only whitespace is cut away on either side
      (`StripIsInfix`). */
  function Strip(s: string): (r: string)
    ensures r == [] || (!IsSpace(r[0]) && !IsSpace(r[|r| - 1]))
    ensures r == [] <==> Blank(s)
  {
    var i, j := TextStart(s), TextEnd(s);
    if i < j then s[i..j] else []
  }

  /** What `Strip` removes is whitespace, from the two ends only. */
  lemma StripIsInfix(s: string)
    ensures exists i :: 0 <= i <= |s| - |Strip(s)| && Strip(s) == s[i..i + |Strip(s)|]
                        && Blank(s[..i]) && Blank(s[i + |Strip(s)|..])
  {
    var i, j := TextStart(s), TextEnd(s);
    if i < j {
      assert Strip(s) == s[i..j];
      assert Blank(s[..i]);
      assert Blank(s[j..]);
    } else {
      assert Blank(s[..0]);
      assert Blank(s[0..]);
    }
  }

  /** `s.split(sep)`: the pieces of `s` between the non-overlapping
      occurrences of `sep`, found from left to right. */
  function Split(s: string, sep: string): (r: seq<string>)
    requires sep != []
    ensures |r| >= 1
    decreases |s|
  {
    if |s| < |sep| then [s]
    else if s[..|sep|] == sep then [[]] + Split(s[|sep|..], sep)
    else
      var rest := Split(s[1..], sep);
      [[s[0]] + rest[0]] + rest[1..]
  }

  /** `sep` occurs in `p` at index `i`. */
  predicate OccursAt(p: string, sep: string, i: int) {
    0 <= i && i + |sep| <= |p| && p[i..i + |sep|] == sep
  }

  /** The pieces hold no occurrence of the separator: every occurrence in
      `s` was cut out. */
  lemma {:induction false} SplitSepFree(s: string, sep: string)
    requires sep != []
    ensures forall p, i :: p in Split(s, sep) ==> !OccursAt(p, sep, i)
    decreases |s|
  {
    if |s| < |sep| {
    } else if s[..|sep|] == sep {
      SplitSepFree(s[|sep|..], sep);
    } else {
      var rest := Split(s[1..], sep);
      SplitSepFree(s[1..], sep);
      JoinSplit(s[1..], sep);
      JoinPrefix(rest, sep);
      var first := [s[0]] + rest[0];
      assert first == s[..|first|];
      assert rest[0] in rest;
      forall p, i | p in Split(s, sep) ensures !OccursAt(p, sep, i) {
        if p == first {
          if i == 0 {
            if |sep| <= |p| {
              assert p[..|sep|] == s[..|sep|];
            }
          } else if 0 < i {
            assert p[1..] == rest[0];
            OccursShift(p, sep, i);
          }
        } else {
          assert p in rest[1..];
        }
      }
    }
  }

  /** The first cut falls at the first occurrence of the separator: the
      separator occurs nowhere before the end of the first piece, and, when
      there is more than one piece, it occurs right there. So a separator
      that overlaps itself is cut where it first begins. */
  lemma {:induction false} SplitFirstCut(s: string, sep: string)
    requires sep != []
    ensures forall i :: 0 <= i < |Split(s, sep)[0]| ==> !OccursAt(s, sep, i)
    ensures |Split(s, sep)| > 1 ==> OccursAt(s, sep, |Split(s, sep)[0]|)
    decreases |s|
  {
    if |s| < |sep| {
    } else if s[..|sep|] == sep {
    } else {
      var rest := Split(s[1..], sep);
      SplitFirstCut(s[1..], sep);
      assert Split(s, sep)[0] == [s[0]] + rest[0];
      assert !OccursAt(s, sep, 0) by { assert s[0..|sep|] == s[..|sep|]; }
      forall i | 0 < i < |Split(s, sep)[0]| ensures !OccursAt(s, sep, i) {
        OccursShift(s, sep, i);
      }
      if |rest| > 1 {
        OccursShift(s, sep, |rest[0]| + 1);
      }
    }
  }

  /** Every cut is at the leftmost remaining occurrence: when the
      separator first occurs at `i`, the first piece is the text before it
      and the rest are the pieces of the text after that occurrence. */
  lemma {:induction false} SplitAtFirst(s: string, sep: string, i: nat)
    requires sep != [] && OccursAt(s, sep, i)
    requires forall j :: 0 <= j < i ==> !OccursAt(s, sep, j)
    ensures Split(s, sep) == [s[..i]] + Split(s[i + |sep|..], sep)
    decreases i
  {
    if i == 0 {
      assert s[..|sep|] == s[0..|sep|];
    } else {
      assert s[..|sep|] != sep by { assert !OccursAt(s, sep, 0); assert s[..|sep|] == s[0..|sep|]; }
      OccursShift(s, sep, i);
      forall j | 0 <= j < i - 1 ensures !OccursAt(s[1..], sep, j) {
        OccursShift(s, sep, j + 1);
      }
      SplitAtFirst(s[1..], sep, i - 1);
      var rest := Split(s[1..], sep);
      assert Split(s, sep) == [[s[0]] + rest[0]] + rest[1..];
      assert [s[0]] + s[1..][..i - 1] == s[..i];
      assert s[1..][i - 1 + |sep|..] == s[i + |sep|..];
    }
  }

  /** An occurrence past the first character is one in the rest of the text. */
  lemma OccursShift(s: string, sep: string, i: int)
    requires 0 < i && s != []
    ensures OccursAt(s, sep, i) <==> OccursAt(s[1..], sep, i - 1)
  {
    if i + |sep| <= |s| {
      assert s[i..i + |sep|] == s[1..][i - 1..i - 1 + |sep|];
    }
  }

  /** The first piece starts the joined text. */
  lemma JoinPrefix(parts: seq<string>, sep: string)
    requires |parts| >= 1
    ensures |parts[0]| <= |Join(parts, sep)| && Join(parts, sep)[..|parts[0]|] == parts[0]
  {
    if |parts| > 1 {
      assert Join(parts, sep) == parts[0] + (sep + Join(parts[1..], sep));
    }
  }

  /** `sep.join(parts)`. */
  function Join(parts: seq<string>, sep: string): string
  {
    if |parts| == 0 then []
    else if |parts| == 1 then parts[0]
    else parts[0] + sep + Join(parts[1..], sep)
  }

  /** Splitting loses nothing: joining the pieces with the separator gives the text back. */
  lemma {:induction false} JoinSplit(s: string, sep: string)
    requires sep != []
    ensures Join(Split(s, sep), sep) == s
    decreases |s|
  {
    if |s| < |sep| {
    } else if s[..|sep|] == sep {
      var rest := Split(s[|sep|..], sep);
      JoinSplit(s[|sep|..], sep);
      assert Split(s, sep) == [[]] + rest;
      JoinCons([], rest, sep);
      assert s == sep + s[|sep|..];
    } else {
      var rest := Split(s[1..], sep);
      JoinSplit(s[1..], sep);
      assert Split(s, sep) == [[s[0]] + rest[0]] + rest[1..];
      JoinPrepend(s[0], rest, sep);
      assert s == [s[0]] + s[1..];
    }
  }

  /** Joining a piece in front of at least one other adds it and a separator. */
  lemma JoinCons(p: string, rest: seq<string>, sep: string)
    requires |rest| >= 1
    ensures Join([p] + rest, sep) == p + sep + Join(rest, sep)
  {
    assert ([p] + rest)[1..] == rest;
  }

  /** A character put in front of the first piece comes first in the joined text. */
  lemma JoinPrepend(c: char, parts: seq<string>, sep: string)
    requires |parts| >= 1
    ensures Join([[c] + parts[0]] + parts[1..], sep) == [c] + Join(parts, sep)
  {
    var r := [[c] + parts[0]] + parts[1..];
    if |parts| > 1 {
      assert r[1..] == parts[1..];
      assert Join(r, sep) == ([c] + parts[0]) + sep + Join(parts[1..], sep);
      assert Join(parts, sep) == parts[0] + sep + Join(parts[1..], sep);
    }
  }

  /** Splitting on one character leaves no piece holding that character. */
  lemma {:induction false} SplitCharFree(s: string, c: char)
    ensures forall p :: p in Split(s, [c]) ==> c !in p
    decreases |s|
  {
    if |s| < 1 {
    } else if s[..1] == [c] {
      SplitCharFree(s[1..], c);
    } else {
      SplitCharFree(s[1..], c);
      var rest := Split(s[1..], [c]);
      assert rest[0] in rest;
      assert s[0] != c by { assert s[..1] == [s[0]]; }
      forall p | p in Split(s, [c]) ensures c !in p {
        if p != [s[0]] + rest[0] {
          assert p in rest[1..];
        }
      }
    }
  }

  /** A piece free of the separator character splits to itself. */
  lemma {:induction false} SplitWithout(p: string, c: char)
    requires c !in p
    ensures Split(p, [c]) == [p]
    decreases |p|
  {
    if |p| >= 1 {
      assert p[..1] == [p[0]];
      assert p[0] in p;
      SplitWithout(p[1..], c);
      assert [p[0]] + p[1..] == p;
    }
  }

  /** Splitting `p + [c] + t` on `c` peels off `p` when `p` holds no `c`. */
  lemma {:induction false} SplitAfter(p: string, c: char, t: string)
    requires c !in p
    ensures Split(p + [c] + t, [c]) == [p] + Split(t, [c])
    decreases |p|
  {
    var s := p + [c] + t;
    if p == [] {
      assert s[..1] == [c];
      assert s[1..] == t;
    } else {
      assert s[..1] == [p[0]];
      assert p[0] in p;
      assert s[1..] == p[1..] + [c] + t;
      SplitAfter(p[1..], c, t);
      assert [p[0]] + p[1..] == p;
    }
  }

  /** Joining pieces that hold no separator character and splitting again
      gives the pieces back. */
  lemma {:induction false} SplitJoin(parts: seq<string>, c: char)
    requires |parts| >= 1
    requires forall p :: p in parts ==> c !in p
    ensures Split(Join(parts, [c]), [c]) == parts
    decreases |parts|
  {
    assert parts[0] in parts;
    if |parts| == 1 {
      SplitWithout(parts[0], c);
    } else {
      forall p | p in parts[1..] ensures c !in p {
        assert p in parts;
      }
      SplitJoin(parts[1..], c);
      assert parts == [parts[0]] + parts[1..];
      JoinCons(parts[0], parts[1..], [c]);
      SplitAfter(parts[0], c, Join(parts[1..], [c]));
    }
  }

  /** Joining blank pieces with a whitespace separator gives blank text. */
  lemma {:induction false} JoinBlank(parts: seq<string>, sep: string)
    requires Blank(sep)
    requires forall p :: p in parts ==> Blank(p)
    ensures Blank(Join(parts, sep))
    decreases |parts|
  {
    if |parts| == 1 {
      assert parts[0] in parts;
    } else if |parts| > 1 {
      assert parts[0] in parts;
      forall p | p in parts[1..] ensures Blank(p) {
        assert p in parts;
      }
      JoinBlank(parts[1..], sep);
      var j := parts[0] + sep + Join(parts[1..], sep);
      forall i | 0 <= i < |j| ensures IsSpace(j[i]) {
        if i < |parts[0]| {
        } else if i < |parts[0]| + |sep| {
          assert j[i] == sep[i - |parts[0]|];
        } else {
          assert j[i] == Join(parts[1..], sep)[i - |parts[0]| - |sep|];
        }
      }
    }
  }
}
