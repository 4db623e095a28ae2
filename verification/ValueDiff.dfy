/** The structural comparison of two documents. */
module ValueDiff {
  import opened JsonValue
  import opened JsonText
  import opened JsonWriter

  /** One line of the report. */
  datatype Entry =
    | OnlyInA(path: string)
    | OnlyInB(path: string)
    | Changed(path: string, before: string, after: string)

  function Rendered(v: Value): string {
    if DoubleFree(v) then Canonical(v) else "(uncanonicalizable)"
  }

  // -------------------------------------------------------------------------
  // The report as a function
  // -------------------------------------------------------------------------

  function Diff(a: Value, b: Value, path: string): seq<Entry>
    decreases a, 0
  {
    if a.Object? && b.Object? then DiffMembers(a.members, b.members, path)
    else if a.Array? && b.Array? then DiffItems(a.items, b.items, 0, path)
    else if Eq(a, b) then []
    else [Changed(path, Rendered(a), Rendered(b))]
  }

  /** A merge of two key-ordered lists. */
  function DiffMembers(a: seq<Member>, b: seq<Member>, path: string): seq<Entry>
    decreases a, |b|
  {
    if a == [] && b == [] then []
    else if b == [] || (a != [] && Less(a[0].key, b[0].key)) then
      [OnlyInA(path + "/" + a[0].key)] + DiffMembers(a[1..], b, path)
    else if a == [] || Less(b[0].key, a[0].key) then
      [OnlyInB(path + "/" + b[0].key)] + DiffMembers(a, b[1..], path)
    else
      Diff(a[0].value, b[0].value, path + "/" + a[0].key) + DiffMembers(a[1..], b[1..], path)
  }

  function At(path: string, i: nat): string {
    path + "/" + Numeral(i, Ten)
  }

  /** Items `i` and up, the lists already cut down to them. */
  function DiffItems(a: seq<Value>, b: seq<Value>, i: nat, path: string): seq<Entry>
    decreases a, |b|
  {
    if a == [] && b == [] then []
    else if b == [] then [OnlyInA(At(path, i))] + DiffItems(a[1..], b, i + 1, path)
    else if a == [] then [OnlyInB(At(path, i))] + DiffItems(a, b[1..], i + 1, path)
    else Diff(a[0], b[0], At(path, i)) + DiffItems(a[1..], b[1..], i + 1, path)
  }

  // -------------------------------------------------------------------------
  // No entry exactly when equal
  // -------------------------------------------------------------------------

  lemma {:induction false} EmptyDiffIsEquality(a: Value, b: Value, path: string)
    ensures Diff(a, b, path) == [] <==> Eq(a, b)
    decreases a, 0
  {
    if a.Object? && b.Object? {
      EmptyMemberDiff(a.members, b.members, path);
    } else if a.Array? && b.Array? {
      EmptyItemDiff(a.items, b.items, 0, path);
    }
  }

  lemma {:induction false} EmptyMemberDiff(a: seq<Member>, b: seq<Member>, path: string)
    ensures DiffMembers(a, b, path) == [] <==>
            |a| == |b| && forall i :: 0 <= i < |a| ==> a[i].key == b[i].key && Eq(a[i].value, b[i].value)
    decreases a, |b|
  {
    hide Less, Eq, Diff;
    if a != [] && b != [] {
      LessIsStrict(a[0].key, b[0].key);
      if !Less(a[0].key, b[0].key) && !Less(b[0].key, a[0].key) {
        EmptyDiffIsEquality(a[0].value, b[0].value, path + "/" + a[0].key);
        EmptyMemberDiff(a[1..], b[1..], path);
        assert forall i :: 1 <= i < |a| ==> a[i] == a[1..][i - 1];
        assert forall i :: 1 <= i < |b| ==> b[i] == b[1..][i - 1];
      }
    }
  }

  lemma {:induction false} EmptyItemDiff(a: seq<Value>, b: seq<Value>, i: nat, path: string)
    ensures DiffItems(a, b, i, path) == [] <==> |a| == |b| && forall k :: 0 <= k < |a| ==> Eq(a[k], b[k])
    decreases a, |b|
  {
    hide Eq, Diff, At;
    if a != [] && b != [] {
      EmptyDiffIsEquality(a[0], b[0], At(path, i));
      EmptyItemDiff(a[1..], b[1..], i + 1, path);
      assert forall k :: 1 <= k < |a| ==> a[k] == a[1..][k - 1];
      assert forall k :: 1 <= k < |b| ==> b[k] == b[1..][k - 1];
    }
  }

  // -------------------------------------------------------------------------
  // Swapping the documents mirrors the report
  // -------------------------------------------------------------------------

  function Mirror(e: Entry): Entry {
    match e
    case OnlyInA(path) => OnlyInB(path)
    case OnlyInB(path) => OnlyInA(path)
    case Changed(path, before, after) => Changed(path, after, before)
  }

  function Mirrored(entries: seq<Entry>): (m: seq<Entry>)
    ensures |m| == |entries|
  {
    seq(|entries|, i requires 0 <= i < |entries| => Mirror(entries[i]))
  }

  lemma MirroredJoin(x: seq<Entry>, y: seq<Entry>)
    ensures Mirrored(x + y) == Mirrored(x) + Mirrored(y)
  {
  }

  /** Swapping the two documents swaps the two sides of every entry, and keeps their order and number. */
  lemma {:induction false} SwapMirrors(a: Value, b: Value, path: string)
    ensures Diff(b, a, path) == Mirrored(Diff(a, b, path))
    ensures |Diff(b, a, path)| == |Diff(a, b, path)|
    decreases a, 0
  {
    if a.Object? && b.Object? {
      SwapMirrorsMembers(a.members, b.members, path);
    } else if a.Array? && b.Array? {
      SwapMirrorsItems(a.items, b.items, 0, path);
    } else {
      hide Eq;
      EqIsSameNorm(a, b);
      EqIsSameNorm(b, a);
    }
  }

  lemma {:induction false} SwapMirrorsMembers(a: seq<Member>, b: seq<Member>, path: string)
    ensures DiffMembers(b, a, path) == Mirrored(DiffMembers(a, b, path))
    decreases a, |b|
  {
    hide Less, Diff, Mirrored;
    if a == [] && b == [] {
      assert Mirrored([]) == [];
    } else {
      if a != [] && b != [] {
        LessIsStrict(a[0].key, b[0].key);
      }
      if b == [] || (a != [] && Less(a[0].key, b[0].key)) {
        SwapMirrorsMembers(a[1..], b, path);
        MirroredFirst(OnlyInA(path + "/" + a[0].key), DiffMembers(a[1..], b, path));
      } else if a == [] || Less(b[0].key, a[0].key) {
        SwapMirrorsMembers(a, b[1..], path);
        MirroredFirst(OnlyInB(path + "/" + b[0].key), DiffMembers(a, b[1..], path));
      } else {
        var here := path + "/" + a[0].key;
        SwapMirrors(a[0].value, b[0].value, here);
        SwapMirrorsMembers(a[1..], b[1..], path);
        MirroredJoin(Diff(a[0].value, b[0].value, here), DiffMembers(a[1..], b[1..], path));
      }
    }
  }

  lemma MirroredFirst(e: Entry, rest: seq<Entry>)
    ensures Mirrored([e] + rest) == [Mirror(e)] + Mirrored(rest)
  {
  }

  lemma {:induction false} SwapMirrorsItems(a: seq<Value>, b: seq<Value>, i: nat, path: string)
    ensures DiffItems(b, a, i, path) == Mirrored(DiffItems(a, b, i, path))
    decreases a, |b|
  {
    hide Diff, Mirrored, At;
    if a == [] && b == [] {
      assert Mirrored([]) == [];
    } else if b == [] {
      SwapMirrorsItems(a[1..], b, i + 1, path);
      MirroredFirst(OnlyInA(At(path, i)), DiffItems(a[1..], b, i + 1, path));
    } else if a == [] {
      SwapMirrorsItems(a, b[1..], i + 1, path);
      MirroredFirst(OnlyInB(At(path, i)), DiffItems(a, b[1..], i + 1, path));
    } else {
      SwapMirrors(a[0], b[0], At(path, i));
      SwapMirrorsItems(a[1..], b[1..], i + 1, path);
      MirroredJoin(Diff(a[0], b[0], At(path, i)), DiffItems(a[1..], b[1..], i + 1, path));
    }
  }

  // -------------------------------------------------------------------------
  // The loops
  // -------------------------------------------------------------------------

  method DiffValues(a: Value, b: Value, path: string, before: seq<Entry>) returns (out: seq<Entry>)
    ensures out == before + Diff(a, b, path)
    decreases a, 0
  {
    hide Eq, Rendered;
    out := before;
    if a.Object? && b.Object? {
      out := MergeMembers(a.members, b.members, path, out);
      return;
    }
    if a.Array? && b.Array? {
      out := CompareItems(a.items, b.items, path, out);
      return;
    }
    if !Eq(a, b) {
      out := out + [Changed(path, Rendered(a), Rendered(b))];
    }
  }

  /** The two iterators of the merge. */
  method MergeMembers(a: seq<Member>, b: seq<Member>, path: string, before: seq<Entry>) returns (out: seq<Entry>)
    ensures out == before + DiffMembers(a, b, path)
    decreases a
  {
    hide Less, Diff, DiffMembers;
    out := before;
    var ia, ib := 0, 0;
    assert a[0..] == a && b[0..] == b;
    while ia < |a| || ib < |b|
      invariant 0 <= ia <= |a| && 0 <= ib <= |b|
      invariant out + DiffMembers(a[ia..], b[ib..], path) == before + DiffMembers(a, b, path)
      decreases |a| - ia + |b| - ib
    {
      MergeStep(a, b, ia, ib, path, out);
      if ib == |b| || (ia < |a| && Less(a[ia].key, b[ib].key)) {
        out := out + [OnlyInA(path + "/" + a[ia].key)];
        ia := ia + 1;
      } else if ia == |a| || Less(b[ib].key, a[ia].key) {
        out := out + [OnlyInB(path + "/" + b[ib].key)];
        ib := ib + 1;
      } else {
        out := DiffValues(a[ia].value, b[ib].value, path + "/" + a[ia].key, out);
        ia := ia + 1;
        ib := ib + 1;
      }
    }
    assert a[|a|..] == [] && b[|b|..] == [];
    assert DiffMembers([], [], path) == [] by { NothingLeft(path); }
  }

  lemma NothingLeft(path: string)
    ensures DiffMembers([], [], path) == [] && forall i: nat :: DiffItems([], [], i, path) == []
  {
  }

  lemma MergeStep(a: seq<Member>, b: seq<Member>, ia: nat, ib: nat, path: string, out: seq<Entry>)
    requires ia <= |a| && ib <= |b| && (ia < |a| || ib < |b|)
    ensures out + DiffMembers(a[ia..], b[ib..], path) ==
            if ib == |b| || (ia < |a| && Less(a[ia].key, b[ib].key)) then
              out + [OnlyInA(path + "/" + a[ia].key)] + DiffMembers(a[ia + 1..], b[ib..], path)
            else if ia == |a| || Less(b[ib].key, a[ia].key) then
              out + [OnlyInB(path + "/" + b[ib].key)] + DiffMembers(a[ia..], b[ib + 1..], path)
            else
              out + Diff(a[ia].value, b[ib].value, path + "/" + a[ia].key) + DiffMembers(a[ia + 1..], b[ib + 1..], path)
  {
    hide Less, Diff;
    if ia < |a| {
      assert a[ia..][1..] == a[ia + 1..];
    }
    if ib < |b| {
      assert b[ib..][1..] == b[ib + 1..];
    }
  }

  method CompareItems(a: seq<Value>, b: seq<Value>, path: string, before: seq<Entry>) returns (out: seq<Entry>)
    ensures out == before + DiffItems(a, b, 0, path)
    decreases a
  {
    hide Diff, DiffItems, At;
    var n := if |a| < |b| then |a| else |b|;
    out := before;
    assert a[0..] == a && b[0..] == b;
    for i := 0 to n
      invariant out + DiffItems(a[i..], b[i..], i, path) == before + DiffItems(a, b, 0, path)
    {
      ItemStep(a, b, i, path, out);
      out := DiffValues(a[i], b[i], At(path, i), out);
    }
    for i := n to |a|
      invariant |a| > n ==> |b| == n
      invariant out + DiffItems(a[i..], b[n..], i, path) == before + DiffItems(a, b, 0, path)
    {
      TailStepA(a, b, i, path, out);
      out := out + [OnlyInA(At(path, i))];
    }
    for i := n to |b|
      invariant |b| > n ==> |a| == n
      invariant out + DiffItems(a[|a|..], b[i..], if |b| > n then i else |a|, path) == before + DiffItems(a, b, 0, path)
    {
      TailStepB(a, b, i, path, out);
      out := out + [OnlyInB(At(path, i))];
    }
    assert a[|a|..] == [] && b[|b|..] == [];
    NothingLeft(path);
  }

  lemma ItemStep(a: seq<Value>, b: seq<Value>, i: nat, path: string, out: seq<Entry>)
    requires i < |a| && i < |b|
    ensures out + DiffItems(a[i..], b[i..], i, path) ==
            out + Diff(a[i], b[i], At(path, i)) + DiffItems(a[i + 1..], b[i + 1..], i + 1, path)
  {
    hide Diff, At;
    assert a[i..][1..] == a[i + 1..] && b[i..][1..] == b[i + 1..];
  }

  lemma TailStepA(a: seq<Value>, b: seq<Value>, i: nat, path: string, out: seq<Entry>)
    requires |b| <= i < |a|
    ensures out + DiffItems(a[i..], b[|b|..], i, path) ==
            out + [OnlyInA(At(path, i))] + DiffItems(a[i + 1..], b[|b|..], i + 1, path)
  {
    hide Diff, At;
    assert a[i..][1..] == a[i + 1..];
  }

  lemma TailStepB(a: seq<Value>, b: seq<Value>, i: nat, path: string, out: seq<Entry>)
    requires |a| <= i < |b|
    ensures out + DiffItems(a[|a|..], b[i..], i, path) ==
            out + [OnlyInB(At(path, i))] + DiffItems(a[|a|..], b[i + 1..], i + 1, path)
  {
    hide Diff, At;
    assert b[i..][1..] == b[i + 1..];
  }
}
