/** The Go string helpers the controllers lean on: TrimSpace, Trim, Split and Join.
    A Go string is modelled as its sequence of code points. */
module Text {

  /** unicode.IsSpace. */
  predicate IsSpace(c: char) {
    c in {'\t', '\n', '\U{B}', '\U{C}', '\r', ' ', '\U{85}', '\U{A0}', '\U{1680}',
          '\U{2028}', '\U{2029}', '\U{202F}', '\U{205F}', '\U{3000}'}
    || '\U{2000}' <= c <= '\U{200A}'
  }

  function TrimSpaceLeft(s: string): string {
    if s != "" && IsSpace(s[0]) then TrimSpaceLeft(s[1..]) else s
  }

  function TrimSpaceRight(s: string): string {
    if s != "" && IsSpace(s[|s| - 1]) then TrimSpaceRight(s[..|s| - 1]) else s
  }

  function TrimSpace(s: string): string {
    TrimSpaceRight(TrimSpaceLeft(s))
  }

  predicate Trimmed(s: string) {
    s != "" ==> !IsSpace(s[0]) && !IsSpace(s[|s| - 1])
  }

  lemma {:induction false} TrimSpaceLeftStops(s: string)
    ensures TrimSpaceLeft(s) != "" ==> !IsSpace(TrimSpaceLeft(s)[0])
  {
    if s != "" && IsSpace(s[0]) { TrimSpaceLeftStops(s[1..]); }
  }

  lemma {:induction false} TrimSpaceRightStops(s: string)
    ensures TrimSpaceRight(s) <= s
    ensures TrimSpaceRight(s) != "" ==> !IsSpace(TrimSpaceRight(s)[|TrimSpaceRight(s)| - 1])
  {
    if s != "" && IsSpace(s[|s| - 1]) { TrimSpaceRightStops(s[..|s| - 1]); }
  }

  /** TrimSpace lands on the trimmed strings and fixes each of them, so it is idempotent. */
  lemma {:induction false} TrimSpaceTrims(s: string)
    ensures Trimmed(TrimSpace(s))
    ensures Trimmed(s) ==> TrimSpace(s) == s
  {
    TrimSpaceLeftStops(s);
    TrimSpaceRightStops(TrimSpaceLeft(s));
  }

  predicate AllSpace(s: string) {
    forall c :: c in s ==> IsSpace(c)
  }

  /** TrimSpace drops space at the two ends and nothing else. */
  lemma TrimSpaceSplits(s: string) returns (front: string, back: string)
    ensures s == front + TrimSpace(s) + back && AllSpace(front) && AllSpace(back)
  {
    front := TrimLeftSplits(s);
    back := TrimRightSplits(TrimSpaceLeft(s));
  }

  lemma {:induction false} TrimLeftSplits(s: string) returns (front: string)
    ensures s == front + TrimSpaceLeft(s) && AllSpace(front)
  {
    front := "";
    if s != "" && IsSpace(s[0]) {
      var rest := TrimLeftSplits(s[1..]);
      front := [s[0]] + rest;
    }
  }

  lemma {:induction false} TrimRightSplits(s: string) returns (back: string)
    ensures s == TrimSpaceRight(s) + back && AllSpace(back)
  {
    back := "";
    if s != "" && IsSpace(s[|s| - 1]) {
      var rest := TrimRightSplits(s[..|s| - 1]);
      back := rest + [s[|s| - 1]];
    }
  }

  /** strings.Trim with a one-character cutset. */
  function TrimSepLeft(s: string, sep: char): string {
    if s != "" && s[0] == sep then TrimSepLeft(s[1..], sep) else s
  }

  function TrimSepRight(s: string, sep: char): string {
    if s != "" && s[|s| - 1] == sep then TrimSepRight(s[..|s| - 1], sep) else s
  }

  function TrimSep(s: string, sep: char): string {
    TrimSepRight(TrimSepLeft(s, sep), sep)
  }

  /** The pieces of a string that starts with c, from the pieces of what follows. */
  function Push(c: char, sep: char, rest: seq<string>): (r: seq<string>)
    requires |rest| >= 1
    ensures |r| >= 1
  {
    if c == sep then [""] + rest else [[c] + rest[0]] + rest[1..]
  }

  /** strings.Split with a one-character separator. */
  function Split(s: string, sep: char): (r: seq<string>)
    ensures |r| >= 1
  {
    if s == "" then [""] else Push(s[0], sep, Split(s[1..], sep))
  }

  /** strings.Join with a one-character separator. */
  function Join(xs: seq<string>, sep: char): string {
    if |xs| == 0 then ""
    else if |xs| == 1 then xs[0]
    else xs[0] + [sep] + Join(xs[1..], sep)
  }

  predicate Free(s: string, sep: char) {
    sep !in s
  }

  predicate AllFree(xs: seq<string>, sep: char) {
    forall x :: x in xs ==> Free(x, sep)
  }

  lemma {:induction false} SplitPiecesFree(s: string, sep: char)
    ensures AllFree(Split(s, sep), sep)
  {
    if s != "" {
      SplitPiecesFree(s[1..], sep);
      var rest := Split(s[1..], sep);
      assert Free(rest[0], sep);
      forall x | x in Split(s, sep) ensures Free(x, sep) {
        if x in rest { assert Free(x, sep); }
      }
    }
  }

  lemma {:induction false} SplitFree(a: string, sep: char)
    requires Free(a, sep)
    ensures Split(a, sep) == [a]
  {
    if a != "" {
      SplitFree(a[1..], sep);
      assert [a[0]] + a[1..] == a;
    }
  }

  lemma PushAppend(c: char, sep: char, rest: seq<string>, more: seq<string>)
    requires |rest| >= 1
    ensures Push(c, sep, rest + more) == Push(c, sep, rest) + more
  {
  }

  /** Splitting distributes over a separator. */
  lemma {:induction false} SplitAppend(a: string, b: string, sep: char)
    ensures Split(a + [sep] + b, sep) == Split(a, sep) + Split(b, sep)
  {
    if a == "" {
      assert a + [sep] + b == [sep] + b;
      assert ([sep] + b)[1..] == b;
    } else {
      assert (a + [sep] + b)[1..] == a[1..] + [sep] + b;
      SplitAppend(a[1..], b, sep);
      PushAppend(a[0], sep, Split(a[1..], sep), Split(b, sep));
    }
  }

  /** Splitting a join gives back the parts, for separator-free parts. */
  lemma {:induction false} SplitJoin(xs: seq<string>, sep: char)
    requires xs != [] && AllFree(xs, sep)
    ensures Split(Join(xs, sep), sep) == xs
  {
    SplitFree(xs[0], sep);
    if |xs| > 1 {
      SplitJoin(xs[1..], sep);
      SplitAppend(xs[0], Join(xs[1..], sep), sep);
    }
  }

  /** A separator-free part of a join is a piece of its split, whatever the other parts hold. */
  lemma {:induction false} JoinKeepsFreePart(xs: seq<string>, x: string, sep: char)
    requires x in xs && Free(x, sep)
    ensures x in Split(Join(xs, sep), sep)
  {
    if |xs| == 1 {
      SplitFree(x, sep);
    } else {
      SplitAppend(xs[0], Join(xs[1..], sep), sep);
      if x == xs[0] {
        SplitFree(x, sep);
      } else {
        JoinKeepsFreePart(xs[1..], x, sep);
      }
    }
  }

  lemma {:induction false} TrimSepLeftSplit(s: string, sep: char)
    ensures exists blanks: seq<string> :: (forall b :: b in blanks ==> b == "")
                                   && (Split(s, sep) == blanks + Split(TrimSepLeft(s, sep), sep))
  {
    if s != "" && s[0] == sep {
      TrimSepLeftSplit(s[1..], sep);
      var blanks: seq<string> :| (forall b :: b in blanks ==> b == "")
                  && Split(s[1..], sep) == blanks + Split(TrimSepLeft(s[1..], sep), sep);
      assert Split(s, sep) == ([""] + blanks) + Split(TrimSepLeft(s, sep), sep);
    } else {
      assert Split(s, sep) == [] + Split(TrimSepLeft(s, sep), sep);
    }
  }

  lemma {:induction false} TrimSepRightSplit(s: string, sep: char)
    ensures exists blanks: seq<string> :: (forall b :: b in blanks ==> b == "")
                                   && (Split(s, sep) == Split(TrimSepRight(s, sep), sep) + blanks)
  {
    if s != "" && s[|s| - 1] == sep {
      var front := s[..|s| - 1];
      TrimSepRightSplit(front, sep);
      var blanks: seq<string> :| (forall b :: b in blanks ==> b == "")
                  && Split(front, sep) == Split(TrimSepRight(front, sep), sep) + blanks;
      SplitAppend(front, "", sep);
      assert front + [sep] + "" == s;
      assert Split(s, sep) == Split(TrimSepRight(s, sep), sep) + (blanks + [""]);
    } else {
      assert Split(s, sep) == Split(TrimSepRight(s, sep), sep) + [];
    }
  }

  /** Trimming separators before a split drops blank pieces at the two ends and nothing else. */
  lemma TrimSepSplit(s: string, sep: char)
    ensures exists front: seq<string>, back: seq<string> ::
              (forall b :: b in front + back ==> b == "")
              && Split(s, sep) == front + Split(TrimSep(s, sep), sep) + back
  {
    TrimSepLeftSplit(s, sep);
    var front: seq<string> :| (forall b :: b in front ==> b == "")
                && Split(s, sep) == front + Split(TrimSepLeft(s, sep), sep);
    TrimSepRightSplit(TrimSepLeft(s, sep), sep);
    var back: seq<string> :| (forall b :: b in back ==> b == "")
                && Split(TrimSepLeft(s, sep), sep) == Split(TrimSep(s, sep), sep) + back;
    assert Split(s, sep) == front + Split(TrimSep(s, sep), sep) + back;
  }

  /** A separator-delimited field read back into parts: "" has none. */
  function Fields(s: string, sep: char): seq<string> {
    if s == "" then [] else Split(TrimSep(s, sep), sep)
  }

  lemma FieldsFree(s: string, sep: char)
    ensures AllFree(Fields(s, sep), sep)
  {
    if s != "" { SplitPiecesFree(TrimSep(s, sep), sep); }
  }

  lemma {:induction false} JoinEnds(xs: seq<string>, sep: char)
    requires xs != [] && xs[0] != "" && xs[|xs| - 1] != "" && AllFree(xs, sep)
    ensures var j := Join(xs, sep); j != "" && j[0] == xs[0][0]
                                    && j[|j| - 1] == xs[|xs| - 1][|xs[|xs| - 1]| - 1]
  {
    if |xs| > 1 {
      var rest := Join(xs[1..], sep);
      JoinLast(xs[1..], sep);
      assert Join(xs, sep) == xs[0] + [sep] + rest;
    }
  }

  lemma {:induction false} JoinLast(xs: seq<string>, sep: char)
    requires xs != [] && xs[|xs| - 1] != ""
    ensures var j := Join(xs, sep); var last := xs[|xs| - 1];
            j != "" && j[|j| - 1] == last[|last| - 1]
  {
    if |xs| > 1 { JoinLast(xs[1..], sep); }
  }

  lemma {:induction false} TrimSepEnds(s: string, sep: char)
    ensures var t := TrimSepRight(s, sep); t <= s && (t != "" ==> t[|t| - 1] != sep)
  {
    if s != "" && s[|s| - 1] == sep { TrimSepEnds(s[..|s| - 1], sep); }
  }

  lemma {:induction false} TrimSepStarts(s: string, sep: char)
    ensures var t := TrimSepLeft(s, sep); t != "" ==> t[0] != sep
  {
    if s != "" && s[0] == sep { TrimSepStarts(s[1..], sep); }
  }

  lemma {:induction false} SplitHead(s: string, sep: char)
    requires s != "" && s[0] != sep
    ensures Split(s, sep)[0] != ""
  {
  }

  lemma {:induction false} SplitLast(s: string, sep: char)
    requires s != "" && s[|s| - 1] != sep
    ensures var r := Split(s, sep); r[|r| - 1] != ""
  {
    if |s| > 1 {
      SplitLast(s[1..], sep);
    }
  }

  /** Fields never starts or ends with a blank part, except the single blank of an all-separator string. */
  lemma FieldsEnds(s: string, sep: char)
    ensures var r := Fields(s, sep); r != [] && r != [""] ==> r[0] != "" && r[|r| - 1] != ""
  {
    if s != "" {
      var l := TrimSepLeft(s, sep);
      var t := TrimSep(s, sep);
      TrimSepStarts(s, sep);
      TrimSepEnds(l, sep);
      if t != "" {
        assert t[0] == l[0];
        SplitHead(t, sep);
        SplitLast(t, sep);
      }
    }
  }

  /** Fields inverts Join exactly on the lists whose two end parts are not blank. */
  lemma FieldsJoin(xs: seq<string>, sep: char)
    requires xs != [] && AllFree(xs, sep)
    ensures Fields(Join(xs, sep), sep) == xs <==> xs[0] != "" && xs[|xs| - 1] != ""
  {
    var j := Join(xs, sep);
    if xs[0] != "" && xs[|xs| - 1] != "" {
      JoinEnds(xs, sep);
      assert xs[0][0] in xs[0] && xs[|xs| - 1][|xs[|xs| - 1]| - 1] in xs[|xs| - 1];
      assert Free(xs[0], sep) && Free(xs[|xs| - 1], sep);
      assert TrimSep(j, sep) == j;
      SplitJoin(xs, sep);
    } else if Fields(j, sep) == xs {
      FieldsEnds(j, sep);
      assert false;
    }
  }

  /** Reading a join back gives at most as many parts, and as many only if it gives the parts. */
  lemma FieldsCount(xs: seq<string>, sep: char)
    requires xs != [] && AllFree(xs, sep)
    ensures var r := Fields(Join(xs, sep), sep); |r| <= |xs| && (|r| == |xs| ==> r == xs)
  {
    var j := Join(xs, sep);
    SplitJoin(xs, sep);
    TrimSepSplit(j, sep);
    var front: seq<string>, back: seq<string> :| (forall b :: b in front + back ==> b == "")
                && Split(j, sep) == front + Split(TrimSep(j, sep), sep) + back;
    if j != "" && |Fields(j, sep)| == |xs| {
      assert front == [] && back == [];
    }
  }
}
