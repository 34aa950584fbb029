/** Java's `String.split(regex)` for a one-character, non-special separator, as
    used by the wallet interpreter (`" "`, `":"`) and by the bank (`":"`).

    Java's rules (limit 0): when the separator does not occur, the result is the
    whole string as a single element (so `""` splits to `[""]`); otherwise the
    string is cut at every separator, leading empty pieces are kept and trailing
    empty pieces are removed (so `"a::"` gives `["a"]` and `"::"` gives `[]`). */
module JavaText {

  /** True when every character of `t` is the separator. */
  predicate AllSep(t: string, sep: char) {
    forall i :: 0 <= i < |t| ==> t[i] == sep
  }

  /** Position of the last occurrence of `c` in `s`. */
  function LastIndexOf(s: string, c: char): (r: nat)
    requires c in s
    ensures r < |s| && s[r] == c
    ensures forall j :: r < j < |s| ==> s[j] != c
  {
    if s[|s| - 1] == c then |s| - 1 else LastIndexOf(s[..|s| - 1], c)
  }

  /** The pieces between separators, before Java drops the trailing empty ones. */
  function Pieces(s: string, sep: char): (r: seq<string>)
    ensures |r| >= 1
    decreases |s|
  {
    if sep !in s then [s]
    else
      var i := LastIndexOf(s, sep);
      Pieces(s[..i], sep) + [s[i + 1..]]
  }

  /** Removes the empty strings at the end of a list of pieces. */
  function DropTrailingEmpty(ps: seq<string>): (r: seq<string>)
    ensures r <= ps
    ensures r == [] || r[|r| - 1] != ""
  {
    if ps != [] && ps[|ps| - 1] == "" then DropTrailingEmpty(ps[..|ps| - 1]) else ps
  }

  /** `s.split(String.valueOf(sep))` with Java's default limit of 0. */
  function Split(s: string, sep: char): seq<string> {
    if sep !in s then [s] else DropTrailingEmpty(Pieces(s, sep))
  }

  /** Inverse direction of `Pieces`: glue the pieces back with the separator. */
  function Join(ps: seq<string>, sep: char): string {
    if ps == [] then ""
    else if |ps| == 1 then ps[0]
    else Join(ps[..|ps| - 1], sep) + [sep] + ps[|ps| - 1]
  }

  lemma {:induction false} PiecesJoin(s: string, sep: char)
    ensures Join(Pieces(s, sep), sep) == s
    decreases |s|
  {
    if sep in s {
      var i := LastIndexOf(s, sep);
      var front := Pieces(s[..i], sep);
      PiecesJoin(s[..i], sep);
      assert (front + [s[i + 1..]])[..|front|] == front;
      assert s == s[..i] + [sep] + s[i + 1..];
    }
  }

  lemma {:induction false} PiecesHaveNoSeparator(s: string, sep: char)
    ensures forall k :: 0 <= k < |Pieces(s, sep)| ==> sep !in Pieces(s, sep)[k]
    decreases |s|
  {
    if sep in s {
      var i := LastIndexOf(s, sep);
      PiecesHaveNoSeparator(s[..i], sep);
      var tail := s[i + 1..];
      assert forall j :: 0 <= j < |tail| ==> tail[j] == s[i + 1 + j];
    }
  }

  lemma {:induction false} DropTrailingEmptyJoin(ps: seq<string>, sep: char)
    ensures Join(DropTrailingEmpty(ps), sep) <= Join(ps, sep)
    ensures AllSep(Join(ps, sep)[|Join(DropTrailingEmpty(ps), sep)|..], sep)
  {
    if ps != [] && ps[|ps| - 1] == "" {
      var front := ps[..|ps| - 1];
      DropTrailingEmptyJoin(front, sep);
      if |ps| > 1 {
        assert Join(ps, sep) == Join(front, sep) + [sep];
      }
    }
  }

  /** What `Split` returns: pieces free of the separator which, glued back
      together, give `s` up to a run of trailing separators; when the separator
      occurs, no piece at the end is empty. */
  lemma SplitSpec(s: string, sep: char)
    ensures forall k :: 0 <= k < |Split(s, sep)| ==> sep !in Split(s, sep)[k]
    ensures Join(Split(s, sep), sep) <= s
    ensures AllSep(s[|Join(Split(s, sep), sep)|..], sep)
    ensures sep !in s ==> Split(s, sep) == [s]
    ensures sep in s && Split(s, sep) != [] ==> Split(s, sep)[|Split(s, sep)| - 1] != ""
  {
    if sep in s {
      PiecesHaveNoSeparator(s, sep);
      PiecesJoin(s, sep);
      DropTrailingEmptyJoin(Pieces(s, sep), sep);
    }
  }

  lemma {:induction false} PiecesOfSeparatorsAreEmpty(s: string, sep: char)
    requires AllSep(s, sep)
    ensures forall k :: 0 <= k < |Pieces(s, sep)| ==> Pieces(s, sep)[k] == ""
    decreases |s|
  {
    if s != "" {
      assert s[0] == sep;
      var i := LastIndexOf(s, sep);
      assert s[|s| - 1] == sep;
      PiecesOfSeparatorsAreEmpty(s[..i], sep);
      assert s[i + 1..] == [];
    }
  }

  lemma {:induction false} DropAllEmpty(ps: seq<string>)
    requires forall k :: 0 <= k < |ps| ==> ps[k] == ""
    ensures DropTrailingEmpty(ps) == []
  {
    if ps != [] {
      DropAllEmpty(ps[..|ps| - 1]);
    }
  }

  /** A non-empty string made only of separators splits into nothing at all
      (Java then fails on `split(...)[0]`). */
  lemma OnlySeparatorsSplitToNothing(s: string, sep: char)
    requires s != [] && AllSep(s, sep)
    ensures Split(s, sep) == []
  {
    assert s[0] == sep;
    PiecesOfSeparatorsAreEmpty(s, sep);
    DropAllEmpty(Pieces(s, sep));
  }

  /** The last separator of `a + [sep] + b`, when `b` has none, is the one in between. */
  lemma LastIndexOfGlued(a: string, b: string, sep: char)
    requires sep !in b
    ensures sep in a + [sep] + b && LastIndexOf(a + [sep] + b, sep) == |a|
  {
    var s := a + [sep] + b;
    assert s[|a|] == sep;
  }

  lemma {:induction false} PiecesOfJoin(ws: seq<string>, sep: char)
    requires |ws| >= 1 && forall k :: 0 <= k < |ws| ==> sep !in ws[k]
    ensures Pieces(Join(ws, sep), sep) == ws
    decreases |ws|
  {
    if |ws| > 1 {
      var front, last := ws[..|ws| - 1], ws[|ws| - 1];
      var a := Join(front, sep);
      assert Join(ws, sep) == a + [sep] + last;
      PiecesGlued(a, last, sep);
      PiecesOfJoin(front, sep);
      assert front + [last] == ws;
    } else {
      assert ws == [ws[0]];
    }
  }

  /** The last separator of `a + [sep] + b`, for `b` free of it, cuts off `b`. */
  lemma PiecesGlued(a: string, b: string, sep: char)
    requires sep !in b
    ensures Pieces(a + [sep] + b, sep) == Pieces(a, sep) + [b]
  {
    var s := a + [sep] + b;
    LastIndexOfGlued(a, b, sep);
    assert s[..|a|] == a && s[|a| + 1..] == b;
  }

  /** Splitting undoes joining, for words free of the separator whose last
      word is not empty. */
  lemma SplitJoin(ws: seq<string>, sep: char)
    requires |ws| >= 1 && ws[|ws| - 1] != ""
    requires forall k :: 0 <= k < |ws| ==> sep !in ws[k]
    ensures Split(Join(ws, sep), sep) == ws
  {
    PiecesOfJoin(ws, sep);
    if |ws| > 1 {
      var a := Join(ws[..|ws| - 1], sep);
      assert Join(ws, sep)[|a|] == sep;
    }
  }

  lemma {:induction false} PiecesHead(p: string, rest: string, sep: char)
    requires sep !in p
    ensures Pieces(p + [sep] + rest, sep)[0] == p
    decreases |rest|
  {
    var s := p + [sep] + rest;
    assert s[|p|] == sep;
    var i := LastIndexOf(s, sep);
    if i == |p| {
      assert s[..i] == p;
    } else {
      var r := rest[..i - |p| - 1];
      assert s[..i] == p + [sep] + r;
      PiecesHead(p, r, sep);
    }
  }

  lemma {:induction false} DropTrailingEmptyKeepsHead(ps: seq<string>)
    requires ps != [] && ps[0] != ""
    ensures DropTrailingEmpty(ps) != [] && DropTrailingEmpty(ps)[0] == ps[0]
  {
    if ps[|ps| - 1] == "" {
      DropTrailingEmptyKeepsHead(ps[..|ps| - 1]);
    }
  }

  /** The first word of a split is the text before the first separator (with
      no separator, the whole string). An empty first word survives whenever
      something other than separators follows it. */
  lemma SplitHead(p: string, rest: string, sep: char)
    requires sep !in p && (p != "" || !AllSep(rest, sep))
    ensures Split(p, sep) == [p]
    ensures Split(p + [sep] + rest, sep) != [] && Split(p + [sep] + rest, sep)[0] == p
  {
    var s := p + [sep] + rest;
    assert s[|p|] == sep;
    PiecesHead(p, rest, sep);
    if p != "" {
      DropTrailingEmptyKeepsHead(Pieces(s, sep));
    } else {
      SplitSpec(s, sep);
      var i :| 0 <= i < |rest| && rest[i] != sep;
      assert s[i + 1] == rest[i];
      assert s[0..] == s;
    }
  }
}
