/** The edit distance with two rows, and why it is the length of a shortest edit script. */
module EditDistance {
  import opened Wrappers

  // ----- Edit scripts

  datatype Edit<T> = Insert(at: nat, x: T) | Delete(at: nat) | Substitute(at: nat, x: T)

  predicate Applicable<T>(e: Edit<T>, s: seq<T>) {
    if e.Insert? then e.at <= |s| else e.at < |s|
  }

  function ApplyEdit<T>(e: Edit<T>, s: seq<T>): seq<T>
    requires Applicable(e, s)
  {
    match e
    case Insert(at, x) => s[..at] + [x] + s[at..]
    case Delete(at) => s[..at] + s[at + 1..]
    case Substitute(at, x) => s[at := x]
  }

  /** The result of all edits in turn, if each of them is applicable. */
  function Edited<T>(script: seq<Edit<T>>, s: seq<T>): Option<seq<T>> {
    if script == [] then Some(s)
    else if Applicable(script[0], s) then Edited(script[1..], ApplyEdit(script[0], s))
    else None
  }

  // ----- The full table

  function Min(a: int, b: int): int {
    if a <= b then a else b
  }

  function Init<T>(s: seq<T>): (r: seq<T>)
    requires s != []
    ensures |r| == |s| - 1
  {
    s[..|s| - 1]
  }

  function Last<T>(s: seq<T>): T
    requires s != []
  {
    s[|s| - 1]
  }

  function Distance<T(==)>(s: seq<T>, t: seq<T>): (d: nat)
    decreases |s| + |t|
  {
    if s == [] then |t|
    else if t == [] then |s|
    else
      var deletion := Distance(Init(s), t) + 1;
      var insertion := Distance(s, Init(t)) + 1;
      var substitution := Distance(Init(s), Init(t)) + (if Last(s) != Last(t) then 1 else 0);
      Min(deletion, Min(insertion, substitution))
  }

  // ----- No script is shorter than the distance

  /** One edit may lead from `s` to `r`: the distance to any goal drops by at most one. */
  ghost predicate Near<T(!new)>(s: seq<T>, r: seq<T>) {
    forall goal :: Distance(s, goal) <= Distance(r, goal) + 1
  }

  lemma {:induction false} AppendGoal<T>(s: seq<T>, t: seq<T>)
    requires t != []
    ensures Distance(s, t) <= Distance(s, Init(t)) + 1
  {
  }

  lemma {:induction false} LongerIsNear<T>(s: seq<T>, z: T, t: seq<T>)
    ensures Distance(s + [z], t) <= Distance(s, t) + 1
    ensures Distance(s, t) <= Distance(s + [z], t) + 1
    decreases |t|
  {
    assert Init(s + [z]) == s;
    if t != [] {
      LongerIsNear(s, z, Init(t));
      AppendGoal(s, t);
    }
  }

  lemma {:induction false} ReplacedIsNear<T>(s: seq<T>, y: T, z: T, t: seq<T>)
    ensures Distance(s + [y], t) <= Distance(s + [z], t) + 1
    decreases |t|
  {
    assert Init(s + [y]) == s && Init(s + [z]) == s;
    if t != [] {
      ReplacedIsNear(s, y, z, Init(t));
      LongerIsNear(s, y, t);
      LongerIsNear(s, z, t);
    }
  }

  lemma {:induction false} CommonEnd<T(!new)>(s: seq<T>, r: seq<T>, z: T, t: seq<T>)
    requires Near(s, r)
    ensures Distance(s + [z], t) <= Distance(r + [z], t) + 1
    decreases |t|
  {
    assert Init(s + [z]) == s && Init(r + [z]) == r;
    assert Distance(s, []) <= Distance(r, []) + 1;
    if t != [] {
      CommonEnd(s, r, z, Init(t));
      assert Distance(s, t) <= Distance(r, t) + 1;
      assert Distance(s, Init(t)) <= Distance(r, Init(t)) + 1;
    } else {
      LengthOf(s);
      LengthOf(r);
    }
  }

  lemma {:induction false} LengthOf<T>(s: seq<T>)
    ensures Distance(s, []) == |s|
  {
  }

  lemma {:induction false} CommonTail<T(!new)>(s: seq<T>, r: seq<T>, tail: seq<T>)
    requires Near(s, r)
    ensures Near(s + tail, r + tail)
    decreases |tail|
  {
    if tail == [] {
      assert s + tail == s && r + tail == r;
    } else {
      var s', r' := s + Init(tail), r + Init(tail);
      CommonTail(s, r, Init(tail));
      assert s + tail == s' + [Last(tail)] && r + tail == r' + [Last(tail)];
      forall goal ensures Distance(s' + [Last(tail)], goal) <= Distance(r' + [Last(tail)], goal) + 1 {
        CommonEnd(s', r', Last(tail), goal);
      }
    }
  }

  lemma EditIsNear<T(!new)>(e: Edit<T>, s: seq<T>)
    requires Applicable(e, s)
    ensures Near(s, ApplyEdit(e, s))
  {
    var a := s[..e.at];
    match e
    case Insert(at, x) =>
      forall goal ensures Distance(a, goal) <= Distance(a + [x], goal) + 1 {
        LongerIsNear(a, x, goal);
      }
      CommonTail(a, a + [x], s[at..]);
      assert s == a + s[at..];
    case Delete(at) =>
      forall goal ensures Distance(a + [s[at]], goal) <= Distance(a, goal) + 1 {
        LongerIsNear(a, s[at], goal);
      }
      CommonTail(a + [s[at]], a, s[at + 1..]);
      assert s == a + [s[at]] + s[at + 1..];
    case Substitute(at, x) =>
      forall goal ensures Distance(a + [s[at]], goal) <= Distance(a + [x], goal) + 1 {
        ReplacedIsNear(a, s[at], x, goal);
      }
      CommonTail(a + [s[at]], a + [x], s[at + 1..]);
      assert s == a + [s[at]] + s[at + 1..] && s[at := x] == a + [x] + s[at + 1..];
  }

  lemma {:induction false} DistanceToSelf<T>(s: seq<T>)
    ensures Distance(s, s) == 0
    decreases |s|
  {
    if s != [] {
      DistanceToSelf(Init(s));
    }
  }

  lemma {:induction false} NoScriptIsShorter<T(!new)>(script: seq<Edit<T>>, s: seq<T>, t: seq<T>)
    requires Edited(script, s) == Some(t)
    ensures Distance(s, t) <= |script|
    decreases |script|
  {
    if script == [] {
      DistanceToSelf(s);
    } else {
      NoScriptIsShorter(script[1..], ApplyEdit(script[0], s), t);
      EditIsNear(script[0], s);
    }
  }

  // ----- Some script has the distance as its length

  lemma {:induction false} FirstEdit<T>(script: seq<Edit<T>>, s: seq<T>)
    requires script != [] && Edited(script, s).Some?
    ensures Applicable(script[0], s) && Edited(script, s) == Edited(script[1..], ApplyEdit(script[0], s))
  {
  }

  lemma {:induction false} FirstOfBoth<T>(script: seq<Edit<T>>, more: seq<Edit<T>>, s: seq<T>)
    requires script != [] && Applicable(script[0], s)
    ensures Edited(script + more, s) == Edited(script[1..] + more, ApplyEdit(script[0], s))
  {
    assert (script + more)[1..] == script[1..] + more;
  }

  lemma {:induction false} EditedConcat<T>(script: seq<Edit<T>>, more: seq<Edit<T>>, s: seq<T>)
    requires Edited(script, s).Some?
    ensures Edited(script + more, s) == Edited(more, Edited(script, s).value)
    decreases |script|
  {
    if script == [] {
      assert script + more == more;
    } else {
      FirstEdit(script, s);
      FirstOfBoth(script, more, s);
      EditedConcat(script[1..], more, ApplyEdit(script[0], s));
    }
  }

  /** A script works the same in front of one more element. */
  lemma {:induction false} EditedBefore<T>(script: seq<Edit<T>>, s: seq<T>, z: T)
    requires Edited(script, s).Some?
    ensures Edited(script, s + [z]) == Some(Edited(script, s).value + [z])
    decreases |script|
  {
    if script != [] {
      var e := script[0];
      assert ApplyEdit(e, s + [z]) == ApplyEdit(e, s) + [z] by {
        assert (s + [z])[..e.at] == s[..e.at];
        if e.Insert? {
          assert (s + [z])[e.at..] == s[e.at..] + [z];
        } else if e.Delete? {
          assert (s + [z])[e.at + 1..] == s[e.at + 1..] + [z];
        }
      }
      EditedBefore(script[1..], ApplyEdit(e, s), z);
    }
  }

  lemma {:induction false} DeleteLast<T>(s: seq<T>, script: seq<Edit<T>>)
    requires s != []
    ensures Edited([Delete(|s| - 1)] + script, s) == Edited(script, Init(s))
  {
    var all := [Delete(|s| - 1)] + script;
    assert all[1..] == script && ApplyEdit(all[0], s) == Init(s);
  }

  lemma {:induction false} InsertLast<T>(s: seq<T>, t: seq<T>, script: seq<Edit<T>>)
    requires t != [] && Edited(script, s) == Some(Init(t))
    ensures Edited(script + [Insert(|t| - 1, Last(t))], s) == Some(t)
  {
    var e := Insert(|t| - 1, Last(t));
    EditedConcat(script, [e], s);
    assert ApplyEdit(e, Init(t)) == t;
    assert Edited([e], Init(t)) == Edited([], t);
  }

  lemma {:induction false} SubstituteLast<T>(s: seq<T>, t: seq<T>, z: T, script: seq<Edit<T>>)
    requires t != [] && Edited(script, s) == Some(Init(t) + [z])
    ensures Edited(script + [Substitute(|t| - 1, Last(t))], s) == Some(t)
  {
    var e := Substitute(|t| - 1, Last(t));
    EditedConcat(script, [e], s);
    assert ApplyEdit(e, Init(t) + [z]) == t;
    assert Edited([e], Init(t) + [z]) == Edited([], t);
  }

  datatype Move = Deleting | Inserting | Keeping

  /** A last step of a shortest script. */
  lemma LastMove<T>(s: seq<T>, t: seq<T>) returns (m: Move)
    requires s != [] || t != []
    ensures m.Deleting? ==> s != [] && Distance(s, t) == Distance(Init(s), t) + 1
    ensures m.Inserting? ==> t != [] && Distance(s, t) == Distance(s, Init(t)) + 1
    ensures m.Keeping? ==>
              && s != [] && t != []
              && Distance(s, t) == Distance(Init(s), Init(t)) + (if Last(s) != Last(t) then 1 else 0)
  {
    if t == [] {
      LengthOf(Init(s));
      m := Deleting;
    } else if s == [] {
      m := Inserting;
    } else if Distance(s, t) == Distance(Init(s), t) + 1 {
      m := Deleting;
    } else if Distance(s, t) == Distance(s, Init(t)) + 1 {
      m := Inserting;
    } else {
      m := Keeping;
    }
  }

  lemma InitAndLast<T>(s: seq<T>)
    requires s != []
    ensures Init(s) + [Last(s)] == s
  {
  }

  lemma KeepLast<T>(s: seq<T>, t: seq<T>, script: seq<Edit<T>>) returns (longer: seq<Edit<T>>)
    requires s != [] && t != [] && Edited(script, Init(s)) == Some(Init(t))
    ensures Edited(longer, s) == Some(t)
    ensures |longer| == |script| + (if Last(s) != Last(t) then 1 else 0)
  {
    EditedBefore(script, Init(s), Last(s));
    InitAndLast(s);
    InitAndLast(t);
    if Last(s) == Last(t) {
      longer := script;
    } else {
      SubstituteLast(s, t, Last(s), script);
      longer := script + [Substitute(|t| - 1, Last(t))];
    }
  }

  lemma {:induction false} ShortestScript<T>(s: seq<T>, t: seq<T>) returns (script: seq<Edit<T>>)
    ensures Edited(script, s) == Some(t) && |script| == Distance(s, t)
    decreases |s| + |t|
  {
    if s == [] && t == [] {
      return [];
    }
    var m := LastMove(s, t);
    match m
    case Deleting =>
      script := ShortestScript(Init(s), t);
      DeleteLast(s, script);
      script := [Delete(|s| - 1)] + script;
    case Inserting =>
      script := ShortestScript(s, Init(t));
      InsertLast(s, t, script);
      script := script + [Insert(|t| - 1, Last(t))];
    case Keeping =>
      var shorter := ShortestScript(Init(s), Init(t));
      script := KeepLast(s, t, shorter);
  }

  /** The distance is the least number of single-element edits that turn `s` into `t`. */
  lemma {:induction false} DistanceIsLeast<T(!new)>(s: seq<T>, t: seq<T>)
    ensures exists script :: Edited(script, s) == Some(t) && |script| == Distance(s, t)
    ensures forall script :: Edited(script, s) == Some(t) ==> Distance(s, t) <= |script|
  {
    var script := ShortestScript(s, t);
    forall other | Edited(other, s) == Some(t) ensures Distance(s, t) <= |other| {
      NoScriptIsShorter(other, s, t);
    }
  }

  // ----- Two rows

  /** The table that the rows belong to, by lengths of prefixes. */
  function Table<T(==)>(s: seq<T>, t: seq<T>, i: nat, j: nat): nat
    requires i <= |s| && j <= |t|
    decreases i + j
  {
    if i == 0 then j
    else if j == 0 then i
    else
      Min(Table(s, t, i - 1, j) + 1,
          Min(Table(s, t, i, j - 1) + 1,
              Table(s, t, i - 1, j - 1) + (if s[i - 1] != t[j - 1] then 1 else 0)))
  }

  lemma PrefixEnds<T>(s: seq<T>, i: nat)
    requires 0 < i <= |s|
    ensures s[..i] != [] && Init(s[..i]) == s[..i - 1] && Last(s[..i]) == s[i - 1]
  {
  }

  lemma {:induction false} DistanceStep<T>(s: seq<T>, t: seq<T>, x: T, y: T, d: nat, i: nat, k: nat)
    requires s != [] && t != [] && Last(s) == x && Last(t) == y
    requires Distance(Init(s), t) == d && Distance(s, Init(t)) == i && Distance(Init(s), Init(t)) == k
    ensures Distance(s, t) == Min(d + 1, Min(i + 1, k + (if x != y then 1 else 0)))
  {
  }

  /** The entry is the distance of the two prefixes. */
  ghost predicate EntryIsDistance<T>(s: seq<T>, t: seq<T>, i: nat, j: nat)
    requires i <= |s| && j <= |t|
  {
    Table(s, t, i, j) == Distance(s[..i], t[..j])
  }

  lemma EntryStep<T>(s: seq<T>, t: seq<T>, i: nat, j: nat)
    requires 0 < i <= |s| && 0 < j <= |t|
    requires EntryIsDistance(s, t, i - 1, j) && EntryIsDistance(s, t, i, j - 1) && EntryIsDistance(s, t, i - 1, j - 1)
    ensures EntryIsDistance(s, t, i, j)
  {
    PrefixEnds(s, i);
    PrefixEnds(t, j);
    DistanceStep(s[..i], t[..j], s[i - 1], t[j - 1],
                 Table(s, t, i - 1, j), Table(s, t, i, j - 1), Table(s, t, i - 1, j - 1));
  }

  lemma {:induction false} TableIsDistance<T>(s: seq<T>, t: seq<T>, i: nat, j: nat)
    requires i <= |s| && j <= |t|
    ensures Table(s, t, i, j) == Distance(s[..i], t[..j])
    decreases i + j
  {
    if i > 0 && j > 0 {
      TableIsDistance(s, t, i - 1, j);
      TableIsDistance(s, t, i, j - 1);
      TableIsDistance(s, t, i - 1, j - 1);
      EntryStep(s, t, i, j);
    }
  }

  ghost predicate Row<T>(v: array<int>, s: seq<T>, t: seq<T>, i: nat, upto: nat)
    requires i <= |s| && upto <= v.Length && upto <= |t| + 1
    reads v
  {
    forall k | 0 <= k < upto :: v[k] == Table(s, t, i, k)
  }

  /** Computes row `i + 1` from row `i`. */
  method FillRow<T(==)>(s: seq<T>, t: seq<T>, i: nat, v0: array<int>, v1: array<int>)
    requires i < |s| && v0 != v1 && v0.Length == v1.Length == |t| + 1
    requires Row(v0, s, t, i, |t| + 1)
    modifies v1
    ensures Row(v1, s, t, i + 1, |t| + 1)
  {
    v1[0] := i + 1;
    for j := 0 to |t|
      invariant Row(v1, s, t, i + 1, j + 1)
    {
      var deletionCost := v0[j + 1] + 1;
      var insertionCost := v1[j] + 1;
      var substitutionCost := v0[j] + (if s[i] != t[j] then 1 else 0);
      v1[j + 1] := Min(deletionCost, Min(insertionCost, substitutionCost));
    }
  }

  method EditDistanceRows<T(==)>(s: seq<T>, t: seq<T>) returns (d: int)
    ensures d == Distance(s, t)
  {
    var v0 := new int[|t| + 1](j => j);
    var v1 := new int[|t| + 1](j => 0);
    for i := 0 to |s|
      invariant v0 != v1 && v0.Length == v1.Length == |t| + 1
      invariant fresh(v0) && fresh(v1)
      invariant Row(v0, s, t, i, |t| + 1)
    {
      FillRow(s, t, i, v0, v1);
      v0, v1 := v1, v0;
    }
    TableIsDistance(s, t, |s|, |t|);
    assert s[..|s|] == s && t[..|t|] == t;
    d := v0[|t|];
  }
}
