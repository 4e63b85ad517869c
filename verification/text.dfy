/** String helpers shared by the whole model: Python's substring test,
    `str.split` on one separator, `str.replace` of one character,
    lower-casing and the code-point ordering that SQL uses on text keys. */
module Text {

  datatype Option<+T> = None | Some(value: T)

  /** `t` occurs in `s` starting at offset `i`. */
  ghost predicate OccursAt(s: string, t: string, i: int) {
    0 <= i && i + |t| <= |s| && s[i..i + |t|] == t
  }

  lemma OccursAtShift(s: string, t: string, i: int)
    requires |s| > 0 && i >= 0
    ensures OccursAt(s[1..], t, i) <==> OccursAt(s, t, i + 1)
  {
    if 0 <= i && i + |t| <= |s| - 1 {
      assert s[1..][i..i + |t|] == s[i + 1..i + 1 + |t|];
    }
  }

  /** Python's `t in s` on strings: a case-sensitive substring test. */
  function Contains(s: string, t: string): (b: bool)
    ensures b <==> exists i :: OccursAt(s, t, i)
    decreases |s|
  {
    if |t| > |s| then false
    else if s[..|t|] == t then assert OccursAt(s, t, 0); true
    else
      var r := Contains(s[1..], t);
      assert r <==> exists i :: OccursAt(s, t, i) by {
        if r {
          var i :| OccursAt(s[1..], t, i);
          OccursAtShift(s, t, i);
        }
        if exists i :: OccursAt(s, t, i) {
          var i :| OccursAt(s, t, i);
          assert i != 0;
          OccursAtShift(s, t, i - 1);
        }
      }
      r
  }

  /** A text missing one of the characters of `t` does not contain `t`. */
  lemma NotContainsMissingChar(s: string, t: string, j: nat)
    requires j < |t| && t[j] !in s
    ensures !Contains(s, t)
  {
    forall i | 0 <= i && i + |t| <= |s| ensures !OccursAt(s, t, i) {
      assert s[i..i + |t|][j] == s[i + j];
    }
  }

  /** A text in which the first two characters of `t` are never adjacent
      does not contain `t`. */
  lemma NotContainsPair(s: string, t: string)
    requires |t| >= 2
    requires forall i :: 0 <= i < |s| - 1 ==> s[i] != t[0] || s[i + 1] != t[1]
    ensures !Contains(s, t)
  {
    forall i | 0 <= i && i + |t| <= |s| ensures !OccursAt(s, t, i) {
      assert s[i..i + |t|][0] == s[i] && s[i..i + |t|][1] == s[i + 1];
    }
  }

  /** A substring of a part is a substring of the whole. */
  lemma {:induction false} ContainsInSuffix(a: string, b: string, t: string)
    requires Contains(b, t)
    ensures Contains(a + b, t)
  {
    var i :| OccursAt(b, t, i);
    assert (a + b)[|a| + i..|a| + i + |t|] == b[i..i + |t|];
    assert OccursAt(a + b, t, |a| + i);
  }

  lemma {:induction false} ContainsInPrefix(a: string, b: string, t: string)
    requires Contains(a, t)
    ensures Contains(a + b, t)
  {
    var i :| OccursAt(a, t, i);
    assert (a + b)[i..i + |t|] == a[i..i + |t|];
    assert OccursAt(a + b, t, i);
  }

  lemma {:induction false} ContainsInMiddle(a: string, m: string, b: string, t: string)
    requires Contains(m, t)
    ensures Contains(a + m + b, t)
  {
    ContainsInSuffix(a, m, t);
    ContainsInPrefix(a + m, b, t);
  }

  /** Two texts that do not contain `t` do not contain it together when the
      first ends in a character `t` lacks, as no occurrence can straddle. */
  lemma {:induction false} NotContainsAcross(a: string, b: string, t: string)
    requires |a| > 0 && a[|a| - 1] !in t
    requires !Contains(a, t) && !Contains(b, t)
    ensures !Contains(a + b, t)
  {
    forall i | 0 <= i && i + |t| <= |a + b| ensures !OccursAt(a + b, t, i) {
      if i + |t| <= |a| {
        assert (a + b)[i..i + |t|] == a[i..i + |t|];
        assert !OccursAt(a, t, i);
      } else if i >= |a| {
        assert (a + b)[i..i + |t|] == b[i - |a|..i - |a| + |t|];
        assert !OccursAt(b, t, i - |a|);
      } else {
        var j := |a| - 1 - i;
        assert (a + b)[i..i + |t|][j] == a[|a| - 1];
        assert t[j] != a[|a| - 1];
      }
    }
  }

  /** A word without the two special capitals that occurs in `s` occurs,
      lower-cased, in the lower case of `s`. */
  lemma {:induction false} PyLowerKeepsWord(s: string, w: string)
    requires Contains(s, w)
    requires forall i :: 0 <= i < |w| ==> w[i] != '\U{212A}' && w[i] != '\U{0130}'
    ensures Contains(PyLower(s), Lower(w))
  {
    var i :| OccursAt(s, w, i);
    var before, after := s[..i], s[i + |w|..];
    assert s == before + w + after;
    PyLowerConcat(before + w, after);
    PyLowerConcat(before, w);
    PyLowerPlain(w);
    assert OccursAt(Lower(w), Lower(w), 0);
    ContainsInMiddle(PyLower(before), PyLower(w), PyLower(after), Lower(w));
  }

  /** If `u` occurs in `s` and `t` occurs in `u`, then `t` occurs in `s`. */
  lemma {:induction false} ContainsTransitive(s: string, u: string, t: string)
    requires Contains(s, u) && Contains(u, t)
    ensures Contains(s, t)
  {
    var i :| OccursAt(s, u, i);
    var j :| OccursAt(u, t, j);
    forall k | 0 <= k < |t| ensures s[i + j + k] == t[k] {
      assert s[i..i + |u|][j + k] == u[j + k];
      assert u[j..j + |t|][k] == t[k];
    }
    assert s[i + j..i + j + |t|] == t;
    assert OccursAt(s, t, i + j);
  }

  /** The pieces joined back with the separator (`sep.join(pieces)`). */
  function Join(pieces: seq<string>, sep: char): string
    requires |pieces| >= 1
    decreases |pieces|
  {
    if |pieces| == 1 then pieces[0] else pieces[0] + [sep] + Join(pieces[1..], sep)
  }

  /** Python's `s.split(sep)` for a one-character separator. */
  function Split(s: string, sep: char): (r: seq<string>)
    ensures |r| >= 1
    ensures forall k :: 0 <= k < |r| ==> sep !in r[k]
    decreases |s|
  {
    if |s| == 0 then [""]
    else
      var rest := Split(s[1..], sep);
      if s[0] == sep then [""] + rest
      else [[s[0]] + rest[0]] + rest[1..]
  }

  lemma JoinHead(pieces: seq<string>, c: char, sep: char)
    requires |pieces| >= 1
    ensures Join([[c] + pieces[0]] + pieces[1..], sep) == [c] + Join(pieces, sep)
  {
    var p := [[c] + pieces[0]] + pieces[1..];
    assert p[1..] == pieces[1..];
  }

  /** Joining the split pieces gives back the original text. */
  lemma {:induction false} JoinSplit(s: string, sep: char)
    ensures Join(Split(s, sep), sep) == s
    decreases |s|
  {
    if |s| > 0 {
      var rest := Split(s[1..], sep);
      JoinSplit(s[1..], sep);
      if s[0] == sep {
        assert ([""] + rest)[1..] == rest;
        assert s == [s[0]] + s[1..];
      } else {
        JoinHead(rest, s[0], sep);
        assert s == [s[0]] + s[1..];
      }
    }
  }

  /** Splitting a join of separator-free pieces gives back the pieces. */
  lemma {:induction false} SplitJoin(pieces: seq<string>, sep: char)
    requires |pieces| >= 1
    requires forall k :: 0 <= k < |pieces| ==> sep !in pieces[k]
    ensures Split(Join(pieces, sep), sep) == pieces
    decreases |pieces|, |pieces[0]|
  {
    if |pieces[0]| == 0 {
      if |pieces| > 1 {
        var j := Join(pieces, sep);
        assert j == [sep] + Join(pieces[1..], sep);
        assert j[1..] == Join(pieces[1..], sep);
        SplitJoin(pieces[1..], sep);
        assert [""] + pieces[1..] == pieces;
      }
    } else {
      var c := pieces[0][0];
      var tail := [pieces[0][1..]] + pieces[1..];
      assert tail[1..] == pieces[1..];
      assert forall k :: 0 <= k < |tail| ==> sep !in tail[k] by {
        forall k | 0 <= k < |tail| ensures sep !in tail[k] {
          if k == 0 {
            assert forall x :: x in pieces[0][1..] ==> x in pieces[0];
          } else {
            assert tail[k] == pieces[k];
          }
        }
      }
      SplitJoin(tail, sep);
      JoinHead(tail, c, sep);
      assert [c] + tail[0] == pieces[0];
      assert [[c] + tail[0]] + tail[1..] == pieces;
      var j := Join(pieces, sep);
      assert j == [c] + Join(tail, sep);
      assert j[1..] == Join(tail, sep);
      assert c != sep;
    }
  }

  /** Python's `s.replace(a, b)` for single characters. */
  function ReplaceChar(s: string, a: char, b: char): (r: string)
    ensures |r| == |s|
    ensures forall i :: 0 <= i < |s| ==> r[i] == (if s[i] == a then b else s[i])
  {
    seq(|s|, i requires 0 <= i < |s| => if s[i] == a then b else s[i])
  }

  /** After replacing `a` by a different `b`, no `a` is left, and replacing
      again changes nothing. */
  lemma ReplaceCharRemovesAll(s: string, a: char, b: char)
    requires a != b
    ensures a !in ReplaceChar(s, a, b)
    ensures ReplaceChar(ReplaceChar(s, a, b), a, b) == ReplaceChar(s, a, b)
  {
  }

  predicate IsUpper(c: char) { 'A' <= c <= 'Z' }

  function LowerChar(c: char): char {
    if IsUpper(c) then (c as int + 32) as char else c
  }

  /** ASCII lower-casing: A to Z become a to z, nothing else changes. */
  function Lower(s: string): (r: string)
    ensures |r| == |s|
    ensures forall i :: 0 <= i < |s| ==> r[i] == LowerChar(s[i])
  {
    seq(|s|, i requires 0 <= i < |s| => LowerChar(s[i]))
  }

  /** Python's `str.lower()` of one character, as far as ASCII text can
      tell. ASCII characters other than A to Z are kept, by Python and
      here alike. Among the rest, the ASCII capitals, KELVIN SIGN (U+212A,
      lower case "k") and LATIN CAPITAL LETTER I WITH DOT ABOVE (U+0130,
      lower case "i" and a combining dot above) are the only characters
      whose lower case holds ASCII letters; they are mapped as Python maps
      them. Every other non-ASCII character is kept: Python turns it into
      text without ASCII characters, and no ASCII fragment can match
      either form. */
  function LowerText(c: char): (r: string)
    ensures |r| > 0
    ensures forall i :: 0 <= i < |r| ==> !IsUpper(r[i])
    ensures |r| == 1 <==> c != '\U{0130}'
  {
    if IsUpper(c) then [LowerChar(c)]
    else if c == '\U{212A}' then "k"
    else if c == '\U{0130}' then "i\U{0307}"
    else [c]
  }

  /** Python's `str.lower()`, character by character. */
  function PyLower(s: string): (r: string)
    ensures |r| >= |s|
    ensures forall i :: 0 <= i < |r| ==> !IsUpper(r[i])
    ensures '\U{0130}' !in s ==> |r| == |s|
    decreases |s|
  {
    if |s| == 0 then "" else LowerText(s[0]) + PyLower(s[1..])
  }

  /** Lower-casing works piece by piece. */
  lemma {:induction false} PyLowerConcat(a: string, b: string)
    ensures PyLower(a + b) == PyLower(a) + PyLower(b)
    decreases |a|
  {
    if |a| == 0 {
      assert a + b == b;
    } else {
      assert (a + b)[1..] == a[1..] + b;
      PyLowerConcat(a[1..], b);
    }
  }

  /** On text without the two special capitals, Python's lower case is the
      ASCII one. */
  lemma {:induction false} PyLowerPlain(s: string)
    requires forall i :: 0 <= i < |s| ==> s[i] != '\U{212A}' && s[i] != '\U{0130}'
    ensures PyLower(s) == Lower(s)
    decreases |s|
  {
    if |s| > 0 {
      PyLowerPlain(s[1..]);
      assert Lower(s) == [LowerChar(s[0])] + Lower(s[1..]);
    }
  }

  /** Strict code-point ordering of strings, as SQLite compares text keys. */
  predicate StrLt(a: string, b: string)
    decreases |a|
  {
    if |a| == 0 then |b| > 0
    else if |b| == 0 then false
    else if a[0] != b[0] then a[0] < b[0]
    else StrLt(a[1..], b[1..])
  }

  lemma {:induction false} StrLtIrreflexive(a: string)
    ensures !StrLt(a, a)
    decreases |a|
  {
    if |a| > 0 {
      StrLtIrreflexive(a[1..]);
    }
  }

  /** Any two different strings are ordered one way or the other. */
  lemma {:induction false} StrLtConnected(a: string, b: string)
    ensures a == b || StrLt(a, b) || StrLt(b, a)
    decreases |a|
  {
    if |a| > 0 && |b| > 0 && a[0] == b[0] {
      StrLtConnected(a[1..], b[1..]);
      if a[1..] == b[1..] {
        assert a == [a[0]] + a[1..] && b == [b[0]] + b[1..];
      }
    }
  }

  lemma {:induction false} StrLtAsymmetric(a: string, b: string)
    ensures StrLt(a, b) ==> !StrLt(b, a)
    decreases |a|
  {
    if |a| > 0 && |b| > 0 && a[0] == b[0] {
      StrLtAsymmetric(a[1..], b[1..]);
    }
  }

  lemma {:induction false} StrLtTransitive(a: string, b: string, c: string)
    requires StrLt(a, b) && StrLt(b, c)
    ensures StrLt(a, c)
    decreases |a|
  {
    if |a| > 0 && |b| > 0 && |c| > 0 && a[0] == b[0] && b[0] == c[0] {
      StrLtTransitive(a[1..], b[1..], c[1..]);
    }
  }
}
