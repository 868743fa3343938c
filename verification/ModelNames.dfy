/** The list operations of controller/channel_upstream_update.go on model names. */
module ModelNames {
  import opened Text
  import opened Lists

  function TrimNonBlank(names: seq<string>): seq<string> {
    if names == [] then []
    else
      var t := TrimSpace(names[0]);
      (if t != "" then [t] else []) + TrimNonBlank(names[1..])
  }

  function Normalize(names: seq<string>): seq<string> {
    Uniq(TrimNonBlank(names))
  }

  function Subtract(base: seq<string>, removed: seq<string>): seq<string> {
    var r := Normalize(removed);
    Filter(Normalize(base), n => n !in r)
  }

  function Intersect(base: seq<string>, allowed: seq<string>): seq<string> {
    var a := Normalize(allowed);
    Filter(Normalize(base), n => n in a)
  }

  /** What mergeModelNames computes: the base, then what is new in the appended list. */
  function Merge(base: seq<string>, appended: seq<string>): seq<string> {
    var b := Normalize(base);
    b + Filter(Normalize(appended), n => n !in b)
  }

  method MergeModelNames(base: seq<string>, appended: seq<string>) returns (merged: seq<string>)
    ensures merged == Merge(base, appended)
  {
    UniqMembers(TrimNonBlank(appended));
    merged := AppendUnseen(Normalize(base), Normalize(appended));
  }

  /** The loop of mergeModelNames over the normalized lists. */
  method AppendUnseen(base: seq<string>, extra: seq<string>) returns (merged: seq<string>)
    requires NoDup(extra)
    ensures merged == base + Beyond(extra, base)
  {
    merged := base;
    var seen := set n | n in merged;
    for i := 0 to |extra|
      invariant merged == base + Beyond(extra[..i], base)
      invariant forall n :: n in seen <==> n in merged
    {
      BeyondOneMore(extra, i, base);
      if extra[i] in seen { continue; }
      seen := seen + {extra[i]};
      merged := merged + [extra[i]];
    }
    assert extra[..|extra|] == extra;
  }

  function Beyond(names: seq<string>, known: seq<string>): seq<string> {
    Filter(names, n => n !in known)
  }

  lemma BeyondOneMore(names: seq<string>, i: nat, known: seq<string>)
    requires i < |names| && NoDup(names)
    ensures var before := Beyond(names[..i], known);
            names[i] !in before
            && Beyond(names[..i + 1], known) == if names[i] in known then before else before + [names[i]]
  {
    var p := n => n !in known;
    assert names[..i + 1] == names[..i] + [names[i]];
    FilterAppend(names[..i], [names[i]], p);
    FilterMember(names[..i], p, names[i]);
    FilterSame(names[..i], p, n => n !in known);
    FilterSame(names[..i + 1], p, n => n !in known);
  }

  function ApplySelected(origin: seq<string>, add: seq<string>, remove: seq<string>): seq<string> {
    var normalizedAdd := Normalize(add);
    var normalizedRemove := Subtract(Normalize(remove), normalizedAdd);
    Subtract(Merge(origin, normalizedAdd), normalizedRemove)
  }

  /** The lists that normalization leaves alone. */
  ghost predicate Normal(names: seq<string>) {
    NoDup(names) && forall n :: n in names ==> n != "" && Trimmed(n)
  }

  lemma {:induction false} TrimNonBlankMembers(names: seq<string>)
    ensures forall n :: n in TrimNonBlank(names) ==> n != "" && Trimmed(n)
  {
    if names != [] {
      TrimNonBlankMembers(names[1..]);
      TrimSpaceTrims(names[0]);
    }
  }

  lemma {:induction false} TrimNonBlankFixes(names: seq<string>)
    requires forall n :: n in names ==> n != "" && Trimmed(n)
    ensures TrimNonBlank(names) == names
  {
    if names != [] {
      assert names[0] in names && forall n :: n in names[1..] ==> n in names;
      TrimNonBlankFixes(names[1..]);
      TrimSpaceTrims(names[0]);
    }
  }

  lemma {:induction false} TrimSpaceLeftPart(s: string, c: char)
    requires Free(s, c)
    ensures Free(TrimSpaceLeft(s), c)
  {
    if s != "" && IsSpace(s[0]) { TrimSpaceLeftPart(s[1..], c); }
  }

  lemma {:induction false} TrimNonBlankFree(names: seq<string>, c: char)
    requires AllFree(names, c)
    ensures AllFree(TrimNonBlank(names), c)
  {
    if names != [] {
      assert Free(names[0], c);
      assert forall n :: n in names[1..] ==> n in names;
      TrimNonBlankFree(names[1..], c);
      TrimSpaceLeftPart(names[0], c);
      TrimSpaceRightStops(TrimSpaceLeft(names[0]));
    }
  }

  /** Normalization lands on the normal lists and fixes each of them. */
  lemma NormalizeNormal(names: seq<string>)
    ensures Normal(Normalize(names))
    ensures Normal(names) ==> Normalize(names) == names
  {
    TrimNonBlankMembers(names);
    UniqMembers(TrimNonBlank(names));
    if Normal(names) {
      TrimNonBlankFixes(names);
      UniqFixes(names);
    }
  }

  lemma {:induction false} TrimNonBlankAppend(a: seq<string>, b: seq<string>)
    ensures TrimNonBlank(a + b) == TrimNonBlank(a) + TrimNonBlank(b)
  {
    if a == [] {
      assert a + b == b;
    } else {
      assert (a + b)[1..] == a[1..] + b;
      TrimNonBlankAppend(a[1..], b);
    }
  }

  lemma {:induction false} TrimNonBlankBlanks(a: seq<string>)
    requires forall x :: x in a ==> x == ""
    ensures TrimNonBlank(a) == []
  {
    if a != [] {
      assert a[0] in a && forall x :: x in a[1..] ==> x in a;
      TrimNonBlankBlanks(a[1..]);
    }
  }

  lemma {:induction false} TrimNonBlankKeeps(names: seq<string>, n: string)
    requires n in names && n != "" && Trimmed(n)
    ensures n in TrimNonBlank(names)
  {
    if n == names[0] { TrimSpaceTrims(n); } else { TrimNonBlankKeeps(names[1..], n); }
  }

  lemma NormalFilter(names: seq<string>, p: string -> bool)
    requires Normal(names)
    ensures Normal(Filter(names, p)) && Normalize(Filter(names, p)) == Filter(names, p)
  {
    FilterNoDup(names, p);
    FilterMembers(names, p);
    NormalizeNormal(Filter(names, p));
  }

  /** Merging keeps the base in front and appends the new names, with no duplicate. */
  lemma MergeNormal(base: seq<string>, appended: seq<string>)
    ensures Normal(Merge(base, appended))
    ensures forall n :: n in Merge(base, appended) <==> n in Normalize(base) || n in Normalize(appended)
  {
    var b := Normalize(base);
    NormalizeNormal(base);
    NormalizeNormal(appended);
    NormalFilter(Normalize(appended), n => n !in b);
    FilterMembers(Normalize(appended), n => n !in b);
    NoDupAppend(b, Filter(Normalize(appended), n => n !in b));
  }

  /** Add wins over remove; survivors keep their order and additions follow them. */
  lemma ApplySelectedMeaning(origin: seq<string>, add: seq<string>, remove: seq<string>)
    requires Normal(origin) && Normal(add) && Normal(remove)
    ensures ApplySelected(origin, add, remove)
         == Filter(origin, n => n in add || n !in remove) + Filter(add, n => n !in origin)
  {
    NormalizeNormal(origin);
    NormalizeNormal(add);
    NormalizeNormal(remove);
    var rem := Subtract(Normalize(remove), add);
    assert rem == Filter(remove, n => n !in add);
    NormalFilter(remove, n => n !in add);
    FilterMembers(remove, n => n !in add);
    var merged := Merge(origin, add);
    MergeNormal(origin, add);
    NormalizeNormal(merged);
    assert merged == origin + Filter(add, n => n !in origin);
    FilterAppend(origin, Filter(add, n => n !in origin), n => n !in rem);
    FilterSame(origin, n => n !in rem, n => n in add || n !in remove);
    FilterMembers(add, n => n !in origin);
    FilterAll(Filter(add, n => n !in origin), n => n !in rem);
  }
}
