/** Where the entries of a comparison lead, and that they are all the places where two documents differ. */
module DiffPaths {
  import opened Wrappers
  import opened JsonValue
  import opened JsonText
  import opened JsonWriter
  import opened ValueDiff

  // -------------------------------------------------------------------------
  // Ways into a document
  // -------------------------------------------------------------------------

  datatype Step = Key(key: string) | Index(i: nat)

  function StepText(s: Step): string {
    "/" + match s { case Key(k) => k case Index(i) => Numeral(i, Ten) }
  }

  function PathText(steps: seq<Step>): string {
    if steps == [] then "" else StepText(steps[0]) + PathText(steps[1..])
  }

  function Lookup(members: seq<Member>, key: string): Option<Value> {
    if members == [] then None
    else if members[0].key == key then Some(members[0].value)
    else Lookup(members[1..], key)
  }

  function Item(items: seq<Value>, i: nat): Option<Value> {
    if i < |items| then Some(items[i]) else None
  }

  function Child(v: Value, s: Step): Option<Value> {
    match s
    case Key(k) => if v.Object? then Lookup(v.members, k) else None
    case Index(i) => if v.Array? then Item(v.items, i) else None
  }

  /** The part of a value at the end of a way. */
  function Reach(v: Value, steps: seq<Step>): Option<Value>
    decreases |steps|
  {
    if steps == [] then Some(v)
    else
      match Child(v, steps[0])
      case None => None
      case Some(c) => Reach(c, steps[1..])
  }

  /** Both are objects, or both are arrays. */
  predicate Open(a: Option<Value>, b: Option<Value>) {
    && a.Some? && b.Some?
    && ((a.value.Object? && b.value.Object?) || (a.value.Array? && b.value.Array?))
  }

  /**
   * The documents differ at the end of a way: both have a part there, of
   * unequal value, that cannot be entered in both; or only one has a part
   * there, in containers of one kind.
   */
  predicate Differ(a: Value, b: Value, steps: seq<Step>) {
    var x, y := Reach(a, steps), Reach(b, steps);
    if x.Some? && y.Some? then !Open(x, y) && !Eq(x.value, y.value)
    else
      && x.Some? != y.Some? && steps != []
      && Open(Reach(a, steps[..|steps| - 1]), Reach(b, steps[..|steps| - 1]))
  }

  function Side(v: Value): string {
    if DoubleFree(v) then Canonical(v) else "(uncanonicalizable)"
  }

  /** What is to be said of it. */
  function EntryAt(a: Value, b: Value, steps: seq<Step>, path: string): Entry {
    var x, y, here := Reach(a, steps), Reach(b, steps), path + PathText(steps);
    if x.None? then OnlyInB(here)
    else if y.None? then OnlyInA(here)
    else Changed(here, Side(x.value), Side(y.value))
  }

  predicate StepLess(s: Step, t: Step) {
    (s.Key? && t.Key? && Less(s.key, t.key)) || (s.Index? && t.Index? && s.i < t.i)
  }

  predicate Precedes(s: seq<Step>, t: seq<Step>) {
    s != [] && t != [] && (StepLess(s[0], t[0]) || (s[0] == t[0] && Precedes(s[1..], t[1..])))
  }

  predicate Ascend(ways: seq<seq<Step>>) {
    forall i, j :: 0 <= i < j < |ways| ==> Precedes(ways[i], ways[j])
  }

  /** The entries, in order, for the ways, which ascend. */
  predicate Tell(ways: seq<seq<Step>>, a: Value, b: Value, path: string, entries: seq<Entry>) {
    && |entries| == |ways| && Ascend(ways)
    && forall i :: 0 <= i < |ways| ==> entries[i] == EntryAt(a, b, ways[i], path)
  }

  // -------------------------------------------------------------------------
  // One step further in
  // -------------------------------------------------------------------------

  predicate DifferOf(x: Option<Value>, y: Option<Value>, rest: seq<Step>) {
    if x.Some? && y.Some? then Differ(x.value, y.value, rest) else x.Some? != y.Some? && rest == []
  }

  function EntryOf(x: Option<Value>, y: Option<Value>, rest: seq<Step>, path: string): Entry {
    if x.Some? && y.Some? then EntryAt(x.value, y.value, rest, path)
    else if x.Some? then OnlyInA(path) else OnlyInB(path)
  }

  /** All that is to be told below one step. */
  ghost predicate TellsBelow(below: seq<seq<Step>>, x: Option<Value>, y: Option<Value>, path: string,
                             first: seq<Entry>)
  {
    && (forall w :: w in below <==> DifferOf(x, y, w))
    && |first| == |below| && Ascend(below)
    && forall i :: 0 <= i < |below| ==> first[i] == EntryOf(x, y, below[i], path)
  }

  function ReachOf(x: Option<Value>, steps: seq<Step>): Option<Value> {
    if x.None? then None else Reach(x.value, steps)
  }

  lemma ReachInside(v: Value, steps: seq<Step>)
    requires steps != []
    ensures var s, rest, front := steps[0], steps[1..], steps[..|steps| - 1];
      && Reach(v, steps) == ReachOf(Child(v, s), rest)
      && Reach(v, front) == if rest == [] then Some(v) else ReachOf(Child(v, s), rest[..|rest| - 1])
  {
    hide Child;
    var front := steps[..|steps| - 1];
    if |steps| > 1 {
      assert front[0] == steps[0] && front[1..] == steps[1..][..|steps| - 2];
    }
  }

  lemma PathInside(steps: seq<Step>, path: string)
    requires steps != []
    ensures path + PathText(steps) == path + StepText(steps[0]) + PathText(steps[1..])
    ensures steps[1..] == [] ==> path + PathText(steps) == path + StepText(steps[0])
  {
    hide StepText;
  }

  lemma OneStepIn(a: Value, b: Value, steps: seq<Step>, path: string)
    requires steps != [] && Open(Some(a), Some(b))
    ensures var s, rest := steps[0], steps[1..];
      && (Differ(a, b, steps) <==> DifferOf(Child(a, s), Child(b, s), rest))
      && (DifferOf(Child(a, s), Child(b, s), rest) ==>
            EntryAt(a, b, steps, path) == EntryOf(Child(a, s), Child(b, s), rest, path + StepText(s)))
  {
    ReachInside(a, steps);
    ReachInside(b, steps);
    PathInside(steps, path);
    var x, y := Child(a, steps[0]), Child(b, steps[0]);
    assert steps[1..] == [] ==> ReachOf(x, steps[1..]) == x && ReachOf(y, steps[1..]) == y;
    hide StepText, PathText, Side, Eq, Child, Reach;
  }

  function Prefixed(s: Step, ways: seq<seq<Step>>): (p: seq<seq<Step>>)
    ensures |p| == |ways| && forall i :: 0 <= i < |ways| ==> p[i] == [s] + ways[i]
  {
    seq(|ways|, i requires 0 <= i < |ways| => [s] + ways[i])
  }

  lemma PrefixedMembers(s: Step, ways: seq<seq<Step>>, steps: seq<Step>)
    ensures steps in Prefixed(s, ways) <==> steps != [] && steps[0] == s && steps[1..] in ways
  {
    if steps in Prefixed(s, ways) {
      var i :| 0 <= i < |ways| && Prefixed(s, ways)[i] == steps;
      assert steps[1..] == ways[i];
    }
    if steps != [] && steps[0] == s && steps[1..] in ways {
      var i :| 0 <= i < |ways| && ways[i] == steps[1..];
      assert Prefixed(s, ways)[i] == steps;
    }
  }

  /** What is told below one step, and then what is told beyond it. */
  lemma Join(a: Value, b: Value, path: string, s: Step, below: seq<seq<Step>>, first: seq<Entry>,
             beyond: seq<seq<Step>>, others: seq<Entry>)
    requires Open(Some(a), Some(b))
    requires TellsBelow(below, Child(a, s), Child(b, s), path + StepText(s), first)
    requires Tell(beyond, a, b, path, others)
    requires forall i :: 0 <= i < |beyond| ==> beyond[i] != [] && StepLess(s, beyond[i][0])
    ensures Tell(Prefixed(s, below) + beyond, a, b, path, first + others)
  {
    hide Differ, EntryAt, StepText, Child, DifferOf, EntryOf, StepLess;
    var head := Prefixed(s, below);
    var all, entries := head + beyond, first + others;
    forall i | 0 <= i < |all| ensures entries[i] == EntryAt(a, b, all[i], path) {
      if i < |head| {
        assert all[i] == [s] + below[i] && all[i][1..] == below[i];
        OneStepIn(a, b, all[i], path);
      } else {
        assert all[i] == beyond[i - |head|];
      }
    }
    forall i, j | 0 <= i < j < |all| ensures Precedes(all[i], all[j]) {
      if j < |head| {
        assert all[i][1..] == below[i] && all[j][1..] == below[j];
      } else if i < |head| {
        assert all[j] == beyond[j - |head|];
      } else {
        assert all[i] == beyond[i - |head|] && all[j] == beyond[j - |head|];
      }
    }
  }

  // -------------------------------------------------------------------------
  // Objects
  // -------------------------------------------------------------------------

  lemma {:induction false} LookupAbsent(members: seq<Member>, key: string)
    requires Sorted(members) && (members != [] ==> Less(key, members[0].key))
    ensures Lookup(members, key) == None
  {
    hide Less;
    if members != [] {
      LessIsStrict(key, members[0].key);
      if |members| > 1 {
        LessIsTransitive(key, members[0].key, members[1].key);
      }
      LookupAbsent(members[1..], key);
    }
  }

  /** What is found lies at or beyond the first key. */
  lemma {:induction false} LookupBeyond(members: seq<Member>, key: string, low: string)
    requires Sorted(members) && (members != [] ==> Less(low, members[0].key))
    requires Lookup(members, key).Some?
    ensures Less(low, key)
  {
    hide Less;
    if members[0].key != key {
      if |members| > 1 {
        LessIsTransitive(low, members[0].key, members[1].key);
      }
      LookupBeyond(members[1..], key, low);
    }
  }

  /** The members left over after the key at which a merge stands. */
  function Past(members: seq<Member>, key: string): seq<Member> {
    if members != [] && members[0].key == key then members[1..] else members
  }

  lemma PastKey(members: seq<Member>, key: string, s: Step)
    requires Sorted(members) && (members != [] ==> members[0].key == key || Less(key, members[0].key))
    ensures Sorted(Past(members, key))
    ensures Child(Object(members), Key(key)) ==
            if members != [] && members[0].key == key then Some(members[0].value) else None
    ensures Child(Object(Past(members, key)), Key(key)) == None
    ensures s != Key(key) ==> Child(Object(Past(members, key)), s) == Child(Object(members), s)
    ensures Child(Object(Past(members, key)), s).Some? ==> s.Key? && StepLess(Key(key), s)
  {
    hide Less;
    var rest := Past(members, key);
    if rest != [] && members[0].key == key {
      assert Less(members[0].key, members[1].key);
    }
    LookupAbsent(rest, key);
    if s.Key? && Lookup(rest, s.key).Some? {
      LookupBeyond(rest, s.key, key);
    }
  }

  /** Nothing differs along ways that neither of two values has. */
  lemma DifferIsSomewhere(a: Value, b: Value, steps: seq<Step>)
    requires Differ(a, b, steps) && Open(Some(a), Some(b))
    ensures steps != [] && (Child(a, steps[0]).Some? || Child(b, steps[0]).Some?)
  {
    hide Eq, Child;
    if steps != [] {
      OneStepIn(a, b, steps, "");
    }
  }

  ghost predicate AllDifferences(ways: seq<seq<Step>>, a: Value, b: Value) {
    forall s :: s in ways <==> Differ(a, b, s)
  }

  /** One turn of the merge, at `key`. */
  lemma MergeTurn(a: seq<Member>, b: seq<Member>, path: string, key: string,
                  below: seq<seq<Step>>, first: seq<Entry>, beyond: seq<seq<Step>>, others: seq<Entry>)
    requires Sorted(a) && (a != [] ==> a[0].key == key || Less(key, a[0].key))
    requires Sorted(b) && (b != [] ==> b[0].key == key || Less(key, b[0].key))
    requires TellsBelow(below, Child(Object(a), Key(key)), Child(Object(b), Key(key)), path + StepText(Key(key)), first)
    requires AllDifferences(beyond, Object(Past(a, key)), Object(Past(b, key)))
    requires Tell(beyond, Object(Past(a, key)), Object(Past(b, key)), path, others)
    ensures AllDifferences(Prefixed(Key(key), below) + beyond, Object(a), Object(b))
    ensures Tell(Prefixed(Key(key), below) + beyond, Object(a), Object(b), path, first + others)
  {
    hide Differ, EntryAt, Child, DifferOf, EntryOf, StepText, Past, Ascend, Prefixed, StepLess;
    var a', b' := Object(Past(a, key)), Object(Past(b, key));
    forall i | 0 <= i < |beyond| ensures && beyond[i] != [] && StepLess(Key(key), beyond[i][0])
                                         && EntryAt(Object(a), Object(b), beyond[i], path) == others[i]
    {
      var s := beyond[i];
      assert s in beyond;
      BeyondTurn(a, b, key, s, path);
    }
    Join(Object(a), Object(b), path, Key(key), below, first, beyond, others);
    forall s ensures s in Prefixed(Key(key), below) + beyond <==> Differ(Object(a), Object(b), s) {
      PrefixedMembers(Key(key), below, s);
      BeyondTurn(a, b, key, s, path);
    }
  }

  lemma BeyondTurn(a: seq<Member>, b: seq<Member>, key: string, s: seq<Step>, path: string)
    requires Sorted(a) && (a != [] ==> a[0].key == key || Less(key, a[0].key))
    requires Sorted(b) && (b != [] ==> b[0].key == key || Less(key, b[0].key))
    ensures var a', b' := Object(Past(a, key)), Object(Past(b, key));
      && (Differ(a', b', s) ==>
           && s != [] && s[0] != Key(key) && StepLess(Key(key), s[0])
           && EntryAt(a', b', s, path) == EntryAt(Object(a), Object(b), s, path))
      && (Differ(Object(a), Object(b), s) <==>
           || Differ(a', b', s)
           || (s != [] && s[0] == Key(key)
               && DifferOf(Child(Object(a), Key(key)), Child(Object(b), Key(key)), s[1..])))
  {
    hide EntryOf, StepText, Past, Eq, Child, DifferOf, Differ, EntryAt, StepLess, Less;
    var a', b' := Object(Past(a, key)), Object(Past(b, key));
    if s == [] {
      if Differ(Object(a), Object(b), s) { DifferIsSomewhere(Object(a), Object(b), s); }
      if Differ(a', b', s) { DifferIsSomewhere(a', b', s); }
    } else {
      OneStepIn(Object(a), Object(b), s, path);
      OneStepIn(a', b', s, path);
      PastKey(a, key, s[0]);
      PastKey(b, key, s[0]);
      if Differ(a', b', s) {
        DifferIsSomewhere(a', b', s);
        KeyIsNotLess(key);
      }
    }
  }

  lemma KeyIsNotLess(key: string)
    ensures !StepLess(Key(key), Key(key))
  {
    LessIsStrict(key, key);
  }

  // -------------------------------------------------------------------------
  // Arrays
  // -------------------------------------------------------------------------

  function Rest(items: seq<Value>, i: nat): seq<Value> {
    if i < |items| then items[i..] else []
  }

  predicate StartsFrom(s: seq<Step>, i: nat) {
    s != [] && s[0].Index? && s[0].i >= i
  }

  /** The ways to all differences from item `i` on. */
  ghost predicate AllFrom(ways: seq<seq<Step>>, a: seq<Value>, b: seq<Value>, i: nat) {
    forall s :: s in ways <==> Differ(Array(a), Array(b), s) && StartsFrom(s, i)
  }

  lemma ItemTurn(a: seq<Value>, b: seq<Value>, path: string, i: nat,
                 below: seq<seq<Step>>, first: seq<Entry>, beyond: seq<seq<Step>>, others: seq<Entry>)
    requires TellsBelow(below, Item(a, i), Item(b, i), path + StepText(Index(i)), first)
    requires AllFrom(beyond, a, b, i + 1) && Tell(beyond, Array(a), Array(b), path, others)
    ensures AllFrom(Prefixed(Index(i), below) + beyond, a, b, i)
    ensures Tell(Prefixed(Index(i), below) + beyond, Array(a), Array(b), path, first + others)
  {
    hide Differ, EntryAt, DifferOf, EntryOf, StepText, Ascend, Prefixed, Item;
    assert Child(Array(a), Index(i)) == Item(a, i) && Child(Array(b), Index(i)) == Item(b, i);
    assert forall k :: 0 <= k < |beyond| ==> beyond[k] in beyond;
    Join(Array(a), Array(b), path, Index(i), below, first, beyond, others);
    forall s ensures s in Prefixed(Index(i), below) + beyond <==> Differ(Array(a), Array(b), s) && StartsFrom(s, i) {
      PrefixedMembers(Index(i), below, s);
      if s != [] {
        OneStepIn(Array(a), Array(b), s, path);
        assert s[0] == Index(i) <==> StartsFrom(s, i) && !StartsFrom(s, i + 1);
      }
    }
  }

  lemma ItemsAreOver(a: seq<Value>, b: seq<Value>, path: string, i: nat)
    requires i >= |a| && i >= |b|
    ensures AllFrom([], a, b, i) && Tell([], Array(a), Array(b), path, [])
  {
    hide Differ;
    forall s | Differ(Array(a), Array(b), s) && StartsFrom(s, i) ensures false {
      DifferIsSomewhere(Array(a), Array(b), s);
    }
  }

  // -------------------------------------------------------------------------
  // The report lists the differences
  // -------------------------------------------------------------------------

  /** A part that only one of the documents has. */
  lemma OneSided(x: Option<Value>, y: Option<Value>, path: string)
    requires x.Some? != y.Some?
    ensures TellsBelow([[]], x, y, path, [EntryOf(x, y, [], path)])
  {
  }

  lemma TwoSided(x: Value, y: Value, path: string, ways: seq<seq<Step>>)
    requires AllDifferences(ways, x, y) && Tell(ways, x, y, path, Diff(x, y, path))
    ensures TellsBelow(ways, Some(x), Some(y), path, Diff(x, y, path))
  {
    hide Differ, EntryAt, Ascend;
  }

  /** The key at which a merge stands. */
  function Standing(a: seq<Member>, b: seq<Member>): string
    requires a != [] || b != []
  {
    if b == [] || (a != [] && Less(a[0].key, b[0].key)) then a[0].key else b[0].key
  }

  /** What the merge says in one turn. */
  lemma MergeSays(a: seq<Member>, b: seq<Member>, path: string)
    requires a != [] || b != []
    ensures var key := Standing(a, b);
      && (a != [] ==> a[0].key == key || Less(key, a[0].key)) && (b != [] ==> b[0].key == key || Less(key, b[0].key))
      && ((a != [] && a[0].key == key) || (b != [] && b[0].key == key))
      && DiffMembers(a, b, path) ==
         (if a != [] && b != [] && a[0].key == b[0].key then Diff(a[0].value, b[0].value, path + StepText(Key(key)))
          else if a != [] && a[0].key == key then [OnlyInA(path + StepText(Key(key)))]
          else [OnlyInB(path + StepText(Key(key)))])
         + DiffMembers(Past(a, key), Past(b, key), path)
  {
    hide Less, Diff;
    if a != [] && b != [] {
      LessIsStrict(a[0].key, b[0].key);
      KeyIsNotLess(a[0].key);
    }
    var key := Standing(a, b);
    assert path + StepText(Key(key)) == path + "/" + key;
  }

  lemma ItemsSay(a: seq<Value>, b: seq<Value>, i: nat, path: string)
    requires i < |a| || i < |b|
    ensures DiffItems(Rest(a, i), Rest(b, i), i, path) ==
            (if i < |a| && i < |b| then Diff(a[i], b[i], path + StepText(Index(i)))
             else if i < |a| then [OnlyInA(path + StepText(Index(i)))]
             else [OnlyInB(path + StepText(Index(i)))])
            + DiffItems(Rest(a, i + 1), Rest(b, i + 1), i + 1, path)
  {
    hide Diff;
    assert path + StepText(Index(i)) == At(path, i);
    assert i < |a| ==> Rest(a, i)[1..] == Rest(a, i + 1);
    assert i < |b| ==> Rest(b, i)[1..] == Rest(b, i + 1);
  }

  /**
   * The entries are, one for one and in ascending order of their ways, all the
   * places where the documents differ; each has the path of its way and shows
   * the two texts found there.
   */
  lemma {:induction false} DiffListsDifferences(a: Value, b: Value, path: string) returns (ways: seq<seq<Step>>)
    requires Proper(a) && Proper(b)
    ensures AllDifferences(ways, a, b) && Tell(ways, a, b, path, Diff(a, b, path))
    decreases a, 0
  {
    hide Differ, Eq, EntryAt, Tell, Less;
    if a.Object? && b.Object? {
      ways := MembersList(a.members, b.members, path);
    } else if a.Array? && b.Array? {
      ways := ItemsList(a.items, b.items, 0, path);
      FromTheFirst(a.items, b.items, ways);
    } else {
      ways := if Eq(a, b) then [] else [[]];
      ClosedDiffer(a, b, path);
    }
  }

  lemma FromTheFirst(a: seq<Value>, b: seq<Value>, ways: seq<seq<Step>>)
    requires AllFrom(ways, a, b, 0)
    ensures AllDifferences(ways, Array(a), Array(b))
  {
    hide Differ;
    forall s | Differ(Array(a), Array(b), s) ensures StartsFrom(s, 0) {
      DifferIsSomewhere(Array(a), Array(b), s);
    }
  }

  lemma ClosedDiffer(a: Value, b: Value, path: string)
    requires !Open(Some(a), Some(b))
    ensures var ways := if Eq(a, b) then [] else [[]];
      AllDifferences(ways, a, b) && Tell(ways, a, b, path, Diff(a, b, path))
  {
    hide Eq;
    assert path + PathText([]) == path;
    forall s | s != [] ensures !Differ(a, b, s) {
      ClosedEndsHere(a, b, s);
    }
  }

  lemma {:induction false} ClosedEndsHere(a: Value, b: Value, s: seq<Step>)
    requires !Open(Some(a), Some(b)) && s != []
    ensures !Differ(a, b, s)
  {
    hide Eq, Child;
    ClosedIsApart(a, b, s[0]);
    var front := s[..|s| - 1];
    if front != [] {
      assert front[0] == s[0];
    }
  }

  lemma ClosedIsApart(a: Value, b: Value, s: Step)
    requires !Open(Some(a), Some(b))
    ensures Child(a, s).None? || Child(b, s).None?
  {
  }

  lemma {:induction false} MembersList(a: seq<Member>, b: seq<Member>, path: string) returns (ways: seq<seq<Step>>)
    requires Proper(Object(a)) && Proper(Object(b))
    ensures AllDifferences(ways, Object(a), Object(b))
    ensures Tell(ways, Object(a), Object(b), path, DiffMembers(a, b, path))
    decreases a, |b|
  {
    hide Differ, DifferOf, EntryAt, Tell, TellsBelow, Less, Diff, DiffMembers, Child, AllDifferences, StepText;
    hide Standing;
    if a == [] && b == [] {
      ways := [];
      NoMembersLeft(path);
      ValueDiff.NothingLeft(path);
    } else {
      var key := Standing(a, b);
      MergeSays(a, b, path);
      PastKey(a, key, Key(key));
      PastKey(b, key, Key(key));
      var x, y, here := Child(Object(a), Key(key)), Child(Object(b), Key(key)), path + StepText(Key(key));
      var below: seq<seq<Step>>, first: seq<Entry>;
      if x.Some? && y.Some? {
        below := DiffListsDifferences(x.value, y.value, here);
        first := Diff(x.value, y.value, here);
        TwoSided(x.value, y.value, here, below);
      } else {
        below, first := [[]], [EntryOf(x, y, [], here)];
        OneSided(x, y, here);
      }
      var beyond := MembersList(Past(a, key), Past(b, key), path);
      MergeTurn(a, b, path, key, below, first, beyond, DiffMembers(Past(a, key), Past(b, key), path));
      ways := Prefixed(Key(key), below) + beyond;
    }
  }

  lemma NoMembersLeft(path: string)
    ensures AllDifferences([], Object([]), Object([])) && Tell([], Object([]), Object([]), path, [])
  {
    hide Differ;
    forall s | Differ(Object([]), Object([]), s) ensures false {
      DifferIsSomewhere(Object([]), Object([]), s);
    }
  }

  lemma {:induction false} ItemsList(a: seq<Value>, b: seq<Value>, i: nat, path: string)
      returns (ways: seq<seq<Step>>)
    requires Proper(Array(a)) && Proper(Array(b))
    ensures AllFrom(ways, a, b, i)
    ensures Tell(ways, Array(a), Array(b), path, DiffItems(Rest(a, i), Rest(b, i), i, path))
    decreases Rest(a, i), |Rest(b, i)|
  {
    hide Differ, DifferOf, EntryAt, Tell, TellsBelow, Diff, DiffItems, AllFrom, StepText;
    if i >= |a| && i >= |b| {
      ways := [];
      ItemsAreOver(a, b, path, i);
      ValueDiff.NothingLeft(path);
    } else {
      var x, y, here := Item(a, i), Item(b, i), path + StepText(Index(i));
      ItemsSay(a, b, i, path);
      var below: seq<seq<Step>>, first: seq<Entry>;
      if x.Some? && y.Some? {
        below := DiffListsDifferences(x.value, y.value, here);
        first := Diff(x.value, y.value, here);
        TwoSided(x.value, y.value, here, below);
      } else {
        below, first := [[]], [EntryOf(x, y, [], here)];
        OneSided(x, y, here);
      }
      assert i < |a| ==> Rest(a, i)[1..] == Rest(a, i + 1);
      var beyond := ItemsList(a, b, i + 1, path);
      ItemTurn(a, b, path, i, below, first, beyond, DiffItems(Rest(a, i + 1), Rest(b, i + 1), i + 1, path));
      ways := Prefixed(Index(i), below) + beyond;
    }
  }
}
