/**
 * The two forms of java.lang.String.split that the relay uses to take a
 * request line apart:
 *  - `line.split(" ")`    (limit 0): every piece between single spaces, then
 *    the trailing empty pieces dropped; a line without a space comes back whole;
 *  - `line.split(" ", 3)` (limit 3): at most three pieces, the last one holding
 *    the rest of the line verbatim, empty pieces kept.
 */
module JavaString {

  /** Position of the first space in `s`. */
  function FirstSpace(s: string): (i: nat)
    requires ' ' in s
    ensures i < |s| && s[i] == ' '
    ensures ' ' !in s[..i]
  {
    if s[0] == ' ' then 0
    else
      assert ' ' in s[1..] by {
        var k :| 0 <= k < |s| && s[k] == ' ';
        assert s[1..][k - 1] == ' ';
      }
      var j := FirstSpace(s[1..]);
      assert s[..j + 1] == [s[0]] + s[1..][..j];
      j + 1
  }

  /** The text before the first space, or the whole string when it has none. */
  function FirstWord(s: string): string
  {
    if ' ' in s then s[..FirstSpace(s)] else s
  }

  /** The pieces of `s` glued back together with single spaces. */
  function Join(parts: seq<string>): string
  {
    if |parts| == 0 then ""
    else if |parts| == 1 then parts[0]
    else parts[0] + " " + Join(parts[1..])
  }

  /** Every piece between single spaces, empty pieces included (split with a negative limit). */
  function Fields(s: string): (r: seq<string>)
    ensures |r| >= 1 && r[0] == FirstWord(s)
    ensures forall k :: 0 <= k < |r| ==> SpaceFree(r[k])
    decreases |s|
  {
    if ' ' !in s then [s]
    else
      var i := FirstSpace(s);
      [s[..i]] + Fields(s[i + 1..])
  }

  /** Removes the empty pieces at the end, as split does when its limit is 0. */
  function DropTrailingEmpty(p: seq<string>): (r: seq<string>)
    ensures r <= p
    ensures r != [] ==> r[|r| - 1] != ""
    ensures forall k :: |r| <= k < |p| ==> p[k] == ""
  {
    if p != [] && p[|p| - 1] == "" then DropTrailingEmpty(p[..|p| - 1]) else p
  }

  /**
   * `s.split(" ")`: no piece holds a space, the first one is the line's first
   * word, and only the empty line ends in an empty piece.
   */
  function Split(s: string): (r: seq<string>)
    ensures forall k :: 0 <= k < |r| ==> SpaceFree(r[k])
    ensures r != [] ==> r[0] == FirstWord(s)
    ensures r != [] && s != "" ==> r[|r| - 1] != ""
  {
    if ' ' !in s then [s] else DropTrailingEmpty(Fields(s))
  }

  /**
   * `s.split(" ", 3)`. It loses nothing: the pieces joined with single spaces
   * give the line back, and every piece but a third one is free of spaces.
   */
  function Split3(s: string): (parts: seq<string>)
    ensures 1 <= |parts| <= 3 && parts[0] == FirstWord(s)
    ensures Join(parts) == s
    ensures forall k :: 0 <= k < |parts| && k < 2 ==> SpaceFree(parts[k])
  {
    if ' ' !in s then [s]
    else
      var i := FirstSpace(s);
      var rest := s[i + 1..];
      AroundFirstSpace(s);
      if ' ' !in rest then
        JoinTwo(s[..i], rest);
        [s[..i], rest]
      else
        var j := FirstSpace(rest);
        AroundFirstSpace(rest);
        JoinTwo(rest[..j], rest[j + 1..]);
        JoinCons(s[..i], [rest[..j], rest[j + 1..]]);
        [s[..i], rest[..j], rest[j + 1..]]
  }

  predicate SpaceFree(s: string)
  {
    ' ' !in s
  }

  /** The first space of `a + " " + b` is the one after `a` when `a` has none. */
  lemma {:induction false} FirstSpaceAfterWord(a: string, b: string)
    requires SpaceFree(a)
    ensures ' ' in a + " " + b && FirstSpace(a + " " + b) == |a|
    ensures (a + " " + b)[..|a|] == a && (a + " " + b)[|a| + 1..] == b
  {
    var s := a + " " + b;
    assert s[|a|] == ' ';
    var i := FirstSpace(s);
    assert forall k :: 0 <= k < |a| ==> s[k] == a[k];
    assert forall k :: 0 <= k < i ==> s[..i][k] == s[k];
  }

  /** A string with a space is the text before its first space, that space, and the rest. */
  lemma {:induction false} AroundFirstSpace(s: string)
    requires ' ' in s
    ensures var i := FirstSpace(s); s == s[..i] + " " + s[i + 1..] && SpaceFree(s[..i])
  {
    var i := FirstSpace(s);
    assert s == s[..i] + [s[i]] + s[i + 1..];
  }

  /** The fields of a string with a space: its first field, then the fields of the rest. */
  lemma {:induction false} FieldsUnfold(s: string)
    requires ' ' in s
    ensures var i := FirstSpace(s);
            && s == s[..i] + " " + s[i + 1..]
            && Fields(s) == [s[..i]] + Fields(s[i + 1..])
            && SpaceFree(s[..i])
  {
    AroundFirstSpace(s);
  }

  /** Fields of a first word, a space and a rest. */
  lemma {:induction false} FieldsCons(a: string, b: string)
    requires SpaceFree(a)
    ensures Fields(a + " " + b) == [a] + Fields(b)
  {
    FirstSpaceAfterWord(a, b);
  }

  /**
   * Apart from the empty line, which split(" ") returns whole as one empty
   * piece, split(" ") is the fields with the trailing empty ones dropped.
   */
  lemma SplitIsTrimmedFields(s: string)
    requires s != ""
    ensures Split(s) == DropTrailingEmpty(Fields(s))
  {
    if ' ' !in s {
      assert Fields(s) == [s];
    }
  }

  /** Splitting on every space loses nothing: joining the fields gives the string back. */
  lemma {:induction false} FieldsJoin(s: string)
    ensures Join(Fields(s)) == s
    decreases |s|
  {
    if ' ' in s {
      var i := FirstSpace(s);
      var rest := s[i + 1..];
      FieldsUnfold(s);
      FieldsJoin(rest);
      var f := Fields(s);
      assert f[1..] == Fields(rest);
    }
  }

  lemma {:induction false} JoinCons(a: string, rest: seq<string>)
    requires rest != []
    ensures Join([a] + rest) == a + " " + Join(rest)
  {
    assert ([a] + rest)[1..] == rest;
  }

  /** Join of exactly three pieces. */
  lemma {:induction false} JoinOfThree(p: seq<string>)
    requires |p| == 3
    ensures Join(p) == p[0] + " " + (p[1] + " " + p[2])
  {
    assert p[1..] == [p[1], p[2]];
    JoinTwo(p[1], p[2]);
  }

  lemma {:induction false} ConcatAssoc(a: string, b: string, c: string)
    ensures a + (b + c) == a + b + c
  {
  }

  lemma {:induction false} JoinTwo(a: string, b: string)
    ensures Join([a, b]) == a + " " + b
  {
    assert [a, b][1..] == [b];
  }

  lemma {:induction false} JoinThree(a: string, b: string, c: string)
    ensures Join([a, b, c]) == a + " " + b + " " + c
  {
    assert [a, b, c][1..] == [b, c];
    assert [b, c][1..] == [c];
    assert Join([b, c]) == b + " " + c;
    assert a + " " + (b + " " + c) == a + " " + b + " " + c;
  }

  /** Three words without spaces, the last one non-empty, survive split(" "). */
  lemma {:induction false} SplitOfThree(a: string, b: string, c: string)
    requires SpaceFree(a) && SpaceFree(b) && SpaceFree(c) && c != ""
    ensures Split(a + " " + b + " " + c) == [a, b, c]
  {
    JoinThree(a, b, c);
    var ws := [a, b, c];
    assert forall k :: 0 <= k < |ws| ==> SpaceFree(ws[k]);
    SplitOfJoin(ws);
  }

  /** Fields is the inverse of Join on space-free words. */
  lemma {:induction false} FieldsOfJoin(ws: seq<string>)
    requires |ws| >= 1
    requires forall k :: 0 <= k < |ws| ==> SpaceFree(ws[k])
    ensures Fields(Join(ws)) == ws
    decreases |ws|
  {
    if |ws| > 1 {
      FieldsCons(ws[0], Join(ws[1..]));
      FieldsOfJoin(ws[1..]);
      assert ws == [ws[0]] + ws[1..];
    }
  }

  /**
   * split(" ") takes apart what Join built, provided no word holds a space
   * and the last word is not empty (a single word comes back whole).
   */
  lemma {:induction false} SplitOfJoin(ws: seq<string>)
    requires |ws| >= 1
    requires forall k :: 0 <= k < |ws| ==> SpaceFree(ws[k])
    requires |ws| > 1 ==> ws[|ws| - 1] != ""
    ensures Split(Join(ws)) == ws
  {
    FieldsOfJoin(ws);
    if |ws| > 1 {
      var s := Join(ws);
      assert s == ws[0] + " " + Join(ws[1..]);
      assert s[|ws[0]|] == ' ';
      var r := DropTrailingEmpty(ws);
      assert ws[|ws| - 1] != "";
    }
  }

  predicate AllSpaces(s: string)
  {
    forall k :: 0 <= k < |s| ==> s[k] == ' '
  }

  predicate AllEmpty(parts: seq<string>)
  {
    forall k :: 0 <= k < |parts| ==> parts[k] == ""
  }

  /** A line of spaces only has only empty fields. */
  lemma {:induction false} SpacesGiveEmptyFields(s: string)
    requires AllSpaces(s)
    ensures AllEmpty(Fields(s))
    decreases |s|
  {
    if s != [] {
      assert s[0] == ' ';
      var i := FirstSpace(s);
      var rest := s[i + 1..];
      FieldsUnfold(s);
      assert AllSpaces(rest) by {
        forall k | 0 <= k < |rest| ensures rest[k] == ' ' {
          assert rest[k] == s[i + 1 + k];
        }
      }
      SpacesGiveEmptyFields(rest);
      assert i == 0;
    }
  }

  /** Only a line of spaces only has only empty fields. */
  lemma {:induction false} EmptyFieldsGiveSpaces(s: string)
    requires AllEmpty(Fields(s))
    ensures AllSpaces(s)
    decreases |s|
  {
    var f := Fields(s);
    if ' ' in s {
      var i := FirstSpace(s);
      var rest := s[i + 1..];
      FieldsUnfold(s);
      assert f[0] == s[..i] == "";
      assert AllEmpty(Fields(rest)) by {
        forall k | 0 <= k < |Fields(rest)| ensures Fields(rest)[k] == "" {
          assert Fields(rest)[k] == f[k + 1];
        }
      }
      EmptyFieldsGiveSpaces(rest);
      forall k | 0 <= k < |s| ensures s[k] == ' ' {
        if k > 0 {
          assert s[k] == rest[k - 1];
        }
      }
    } else {
      assert f[0] == s;
    }
  }

  /** All fields are empty exactly when the string is made of spaces only. */
  lemma {:induction false} FieldsAllEmpty(s: string)
    ensures AllEmpty(Fields(s)) <==> AllSpaces(s)
  {
    if AllSpaces(s) {
      SpacesGiveEmptyFields(s);
    }
    if AllEmpty(Fields(s)) {
      EmptyFieldsGiveSpaces(s);
    }
  }

  /** split(" ") yields no piece at all exactly for a non-empty line of spaces only. */
  lemma {:induction false} SplitEmpty(s: string)
    ensures Split(s) == [] <==> s != "" && AllSpaces(s)
  {
    if ' ' !in s {
      if s != "" {
        assert s[0] != ' ';
      }
    } else {
      FieldsAllEmpty(s);
      var f := Fields(s);
      var r := DropTrailingEmpty(f);
      if r != [] {
        assert r[|r| - 1] == f[|r| - 1];
      }
    }
  }

  /** split(" ", 3) of a line whose first two words hold no space. */
  lemma {:induction false} Split3OfWords(a: string, b: string, c: string)
    requires SpaceFree(a) && SpaceFree(b)
    ensures Split3(a + " " + b + " " + c) == [a, b, c]
  {
    var s := a + " " + b + " " + c;
    assert s == a + " " + (b + " " + c);
    FirstSpaceAfterWord(a, b + " " + c);
    assert s[|a| + 1..] == b + " " + c;
    FirstSpaceAfterWord(b, c);
    assert (b + " " + c)[..|b|] == b;
    assert (b + " " + c)[|b| + 1..] == c;
    assert s[..|a|] == a;
  }

  /** split(" ", 3) of a line of a word, a space and a rest without a space. */
  lemma {:induction false} Split3OfTwo(a: string, b: string)
    requires SpaceFree(a) && SpaceFree(b)
    ensures Split3(a + " " + b) == [a, b]
  {
    var s := a + " " + b;
    FirstSpaceAfterWord(a, b);
    assert s[..|a|] == a;
    assert s[|a| + 1..] == b;
  }
}
