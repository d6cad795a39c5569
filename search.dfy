/**
 * Substring search as the Kotlin standard library performs it for
 * `String.contains(other, ignoreCase)` and `String.equals(other, ignoreCase)`,
 * and the list filter both view-models apply to the stored items.
 * Case folding is modelled on ASCII letters only.
 */
module Search {
  import opened Todos

  /** Folds an ASCII upper-case letter to lower case; every other character is kept. */
  function FoldAscii(c: char): (d: char)
    ensures !('A' <= d <= 'Z')
    ensures 'a' <= d <= 'z' <==> 'A' <= c <= 'Z' || 'a' <= c <= 'z'
  {
    if 'A' <= c <= 'Z' then (c as int + 32) as char else c
  }

  /** Folding twice is folding once. */
  lemma FoldAsciiIdempotent(c: char)
    ensures FoldAscii(FoldAscii(c)) == FoldAscii(c)
  {
  }

  /** The upper- and lower-case forms of an ASCII letter fold to the lower-case one. */
  lemma FoldAsciiLetterPair(lower: char)
    requires 'a' <= lower <= 'z'
    ensures FoldAscii(lower) == lower
    ensures FoldAscii((lower as int - 32) as char) == lower
  {
  }

  /** The string with every ASCII letter folded to lower case. */
  function Lower(s: string): (r: string)
    ensures |r| == |s|
    ensures forall i :: 0 <= i < |r| ==> !('A' <= r[i] <= 'Z')
  {
    seq(|s|, i requires 0 <= i < |s| => FoldAscii(s[i]))
  }

  /** Each character of the lowered string is the folded character at the same index. */
  lemma LowerAt(s: string, i: int)
    requires 0 <= i < |s|
    ensures Lower(s)[i] == FoldAscii(s[i])
  {
  }

  /** Lowering a lowered string changes nothing. */
  lemma LowerIdempotent(s: string)
    ensures Lower(Lower(s)) == Lower(s)
  {
    forall i | 0 <= i < |s| ensures Lower(Lower(s))[i] == Lower(s)[i] {
      FoldAsciiIdempotent(s[i]);
    }
  }

  /** Character comparison, optionally ignoring case. */
  predicate CharMatches(a: char, b: char, ignoreCase: bool)
  {
    if ignoreCase then FoldAscii(a) == FoldAscii(b) else a == b
  }

  /** `q` occurs in `s` starting at index `i` (the region fits and every character matches). */
  predicate MatchesAt(s: string, i: int, q: string, ignoreCase: bool)
  {
    && 0 <= i
    && i + |q| <= |s|
    && forall k :: 0 <= k < |q| ==> CharMatches(s[i + k], q[k], ignoreCase)
  }

  /**
   * The first index at or after `from` where `q` occurs in `s`, or -1: the
   * scan of `indexOf(other, startIndex, ignoreCase)` for a start within the
   * string. (Past the end, Java's case-sensitive `indexOf` of the empty
   * string returns the length; `contains` always starts at 0.)
   */
  function IndexOfFrom(s: string, q: string, from: nat, ignoreCase: bool): (r: int)
    decreases |s| - from
    ensures r == -1 || (from <= r && MatchesAt(s, r, q, ignoreCase))
    ensures r != -1 ==> forall j :: from <= j < r ==> !MatchesAt(s, j, q, ignoreCase)
    ensures r == -1 <==> forall j :: from <= j ==> !MatchesAt(s, j, q, ignoreCase)
  {
    if from + |q| > |s| then -1
    else if MatchesAt(s, from, q, ignoreCase) then from
    else IndexOfFrom(s, q, from + 1, ignoreCase)
  }

  /** `s.indexOf(q, ignoreCase = ignoreCase)`: the first index where `q` occurs, or -1. */
  function IndexOf(s: string, q: string, ignoreCase: bool): (r: int)
    ensures r == -1 || MatchesAt(s, r, q, ignoreCase)
    ensures forall j :: 0 <= j < r ==> !MatchesAt(s, j, q, ignoreCase)
    ensures r == -1 <==> forall j :: !MatchesAt(s, j, q, ignoreCase)
  {
    IndexOfFrom(s, q, 0, ignoreCase)
  }

  /** `s.contains(q, ignoreCase = ignoreCase)`, which Kotlin defines as `indexOf(q) >= 0`. */
  predicate Contains(s: string, q: string, ignoreCase: bool)
    ensures Contains(s, q, ignoreCase) ==> |q| <= |s|
    ensures Contains(s, q, ignoreCase) ==> MatchesAt(s, IndexOf(s, q, ignoreCase), q, ignoreCase)
  {
    IndexOf(s, q, ignoreCase) >= 0
  }

  /** Equal-length strings match from index 0 ignoring case exactly when their lowered forms are equal. */
  lemma MatchesFromStartIsLoweredEqual(a: string, b: string)
    requires |a| == |b|
    ensures MatchesAt(a, 0, b, true) <==> Lower(a) == Lower(b)
  {
    MatchesAtIgnoreCaseIsLowered(a, 0, b);
    if MatchesAt(Lower(a), 0, Lower(b), false) {
      forall k | 0 <= k < |a| ensures Lower(a)[k] == Lower(b)[k] {
        assert CharMatches(Lower(a)[0 + k], Lower(b)[k], false);
      }
    }
  }

  /**
   * `a.equals(b, ignoreCase = true)`: same length and the characters match
   * ignoring case, which is equality of the lowered strings.
   */
  predicate EqualsIgnoreCase(a: string, b: string)
    ensures EqualsIgnoreCase(a, b) <==> Lower(a) == Lower(b)
  {
    if |a| == |b| then
      MatchesFromStartIsLoweredEqual(a, b);
      MatchesAt(a, 0, b, true)
    else
      assert |Lower(a)| != |Lower(b)|;
      false
  }

  /** `contains` holds exactly when the query occurs at some index. */
  lemma ContainsIffOccurs(s: string, q: string, ignoreCase: bool)
    ensures Contains(s, q, ignoreCase) <==> exists i :: MatchesAt(s, i, q, ignoreCase)
  {
    if Contains(s, q, ignoreCase) {
      assert MatchesAt(s, IndexOf(s, q, ignoreCase), q, ignoreCase);
    }
  }

  /** The empty query occurs in every string. */
  lemma ContainsEmpty(s: string, ignoreCase: bool)
    ensures Contains(s, "", ignoreCase)
  {
    assert MatchesAt(s, 0, "", ignoreCase);
  }

  /** Ignoring case is the same as comparing the ASCII-lowered strings case-sensitively. */
  lemma MatchesAtIgnoreCaseIsLowered(s: string, i: int, q: string)
    ensures MatchesAt(s, i, q, true) <==> MatchesAt(Lower(s), i, Lower(q), false)
  {
    if 0 <= i && i + |q| <= |s| {
      forall k | 0 <= k < |q|
        ensures CharMatches(s[i + k], q[k], true) <==> CharMatches(Lower(s)[i + k], Lower(q)[k], false)
      {
        LowerAt(s, i + k);
        LowerAt(q, k);
      }
    }
  }

  /** `contains(ignoreCase = true)` is `contains` on the lowered strings. */
  lemma ContainsIgnoreCaseIsLowered(s: string, q: string)
    ensures Contains(s, q, true) <==> Contains(Lower(s), Lower(q), false)
  {
    ContainsIffOccurs(s, q, true);
    ContainsIffOccurs(Lower(s), Lower(q), false);
    if Contains(s, q, true) {
      var i :| MatchesAt(s, i, q, true);
      MatchesAtIgnoreCaseIsLowered(s, i, q);
    }
    if Contains(Lower(s), Lower(q), false) {
      var i :| MatchesAt(Lower(s), i, Lower(q), false);
      MatchesAtIgnoreCaseIsLowered(s, i, q);
    }
  }

  /** A case-sensitive match is also a case-insensitive one. */
  lemma ContainsSensitiveImpliesInsensitive(s: string, q: string)
    ensures Contains(s, q, false) ==> Contains(s, q, true)
  {
    ContainsIffOccurs(s, q, false);
    ContainsIffOccurs(s, q, true);
    if Contains(s, q, false) {
      var i :| MatchesAt(s, i, q, false);
      assert MatchesAt(s, i, q, true);
    }
  }

  /** The reserved input is recognised exactly in its 32 ASCII case variants of "error". */
  lemma EqualsErrorIgnoreCase(t: string)
    ensures EqualsIgnoreCase(t, "Error") <==> Lower(t) == "error"
  {
    if EqualsIgnoreCase(t, "Error") {
      assert Lower("Error") == "error";
      forall k | 0 <= k < |t| ensures Lower(t)[k] == "error"[k] {
        assert CharMatches(t[0 + k], "Error"[k], true);
      }
    }
    if Lower(t) == "error" {
      forall k | 0 <= k < 5 ensures CharMatches(t[0 + k], "Error"[k], true) {
        assert FoldAscii(t[k]) == "error"[k];
      }
    }
  }

  /** Whether an item passes the search: its description contains the query. */
  predicate Matches(t: Todo, q: string, ignoreCase: bool)
  {
    Contains(t.description, q, ignoreCase)
  }

  /** `todos.filter { it.description.contains(q, ignoreCase) }`. */
  function Filter(todos: seq<Todo>, q: string, ignoreCase: bool): (r: seq<Todo>)
    ensures |r| <= |todos|
    ensures forall t :: t in r ==> t in todos && Matches(t, q, ignoreCase)
  {
    if |todos| == 0 then []
    else (if Matches(todos[0], q, ignoreCase) then [todos[0]] else []) + Filter(todos[1..], q, ignoreCase)
  }

  /**
   * The combine lambda of `todoList`: an empty query passes the stored list
   * through, any other query filters it.
   */
  function VisibleList(todos: seq<Todo>, q: string, ignoreCase: bool): (r: seq<Todo>)
    ensures |r| <= |todos|
    ensures forall t :: t in r ==> t in todos
  {
    if |q| == 0 then todos else Filter(todos, q, ignoreCase)
  }

  /** `xs` is `ys` with some elements removed, order kept. */
  ghost predicate IsSubsequence<T>(xs: seq<T>, ys: seq<T>)
    decreases |ys|
  {
    if |xs| == 0 then true
    else if |ys| == 0 then false
    else (xs[0] == ys[0] && IsSubsequence(xs[1..], ys[1..])) || IsSubsequence(xs, ys[1..])
  }

  /** A sublist of `ys` is also a sublist of `ys` with one more element in front. */
  lemma SubsequenceSkip<T>(xs: seq<T>, y: T, ys: seq<T>)
    requires IsSubsequence(xs, ys)
    ensures IsSubsequence(xs, [y] + ys)
  {
    assert ([y] + ys)[1..] == ys;
  }

  /** Putting the same element in front of both sides keeps the sublist relation. */
  lemma SubsequenceTake<T>(xs: seq<T>, y: T, ys: seq<T>)
    requires IsSubsequence(xs, ys)
    ensures IsSubsequence([y] + xs, [y] + ys)
  {
    assert ([y] + xs)[1..] == xs;
    assert ([y] + ys)[1..] == ys;
  }

  /** Filtering keeps the order of the stored list and adds nothing. */
  lemma {:induction false} FilterIsSubsequence(todos: seq<Todo>, q: string, ignoreCase: bool)
    ensures IsSubsequence(Filter(todos, q, ignoreCase), todos)
  {
    if |todos| > 0 {
      var rest := Filter(todos[1..], q, ignoreCase);
      FilterIsSubsequence(todos[1..], q, ignoreCase);
      assert todos == [todos[0]] + todos[1..];
      if Matches(todos[0], q, ignoreCase) {
        assert Filter(todos, q, ignoreCase) == [todos[0]] + rest;
        SubsequenceTake(rest, todos[0], todos[1..]);
      } else {
        assert Filter(todos, q, ignoreCase) == rest;
        SubsequenceSkip(rest, todos[0], todos[1..]);
      }
    }
  }

  /** An item is visible after filtering exactly when it is stored and matches. */
  lemma {:induction false} FilterMembership(todos: seq<Todo>, q: string, ignoreCase: bool, t: Todo)
    ensures t in Filter(todos, q, ignoreCase) <==> t in todos && Matches(t, q, ignoreCase)
  {
    if |todos| > 0 {
      FilterMembership(todos[1..], q, ignoreCase, t);
      assert todos == [todos[0]] + todos[1..];
    }
  }

  /** Each matching item is kept as many times as it is stored; others are dropped. */
  lemma {:induction false} FilterMultiplicity(todos: seq<Todo>, q: string, ignoreCase: bool, t: Todo)
    ensures multiset(Filter(todos, q, ignoreCase))[t] ==
            if Matches(t, q, ignoreCase) then multiset(todos)[t] else 0
  {
    if |todos| > 0 {
      FilterMultiplicity(todos[1..], q, ignoreCase, t);
      assert todos == [todos[0]] + todos[1..];
      assert multiset(todos) == multiset{todos[0]} + multiset(todos[1..]);
    }
  }

  /** Filtering distributes over concatenation. */
  lemma {:induction false} FilterAppend(a: seq<Todo>, b: seq<Todo>, q: string, ignoreCase: bool)
    ensures Filter(a + b, q, ignoreCase) == Filter(a, q, ignoreCase) + Filter(b, q, ignoreCase)
  {
    if |a| == 0 {
      assert a + b == b;
    } else {
      var x, xs := a[0], a[1..];
      assert a == [x] + xs;
      assert a + b == [x] + (xs + b);
      FilterCons(x, xs + b, q, ignoreCase);
      FilterCons(x, xs, q, ignoreCase);
      FilterAppend(xs, b, q, ignoreCase);
    }
  }

  /** Filtering a list with a first item: the item if it matches, then the filtered rest. */
  lemma FilterCons(x: Todo, xs: seq<Todo>, q: string, ignoreCase: bool)
    ensures Filter([x] + xs, q, ignoreCase) ==
            (if Matches(x, q, ignoreCase) then [x] else []) + Filter(xs, q, ignoreCase)
  {
    assert ([x] + xs)[0] == x;
    assert ([x] + xs)[1..] == xs;
  }

  /** When every stored item matches, filtering changes nothing. */
  lemma {:induction false} FilterAllMatch(todos: seq<Todo>, q: string, ignoreCase: bool)
    requires forall i :: 0 <= i < |todos| ==> Matches(todos[i], q, ignoreCase)
    ensures Filter(todos, q, ignoreCase) == todos
  {
    if |todos| > 0 {
      FilterAllMatch(todos[1..], q, ignoreCase);
    }
  }

  /**
   * The empty-query branch of `todoList` is only a shortcut: filtering by the
   * empty query would give the same list, since every description contains it.
   */
  lemma VisibleListIsFilter(todos: seq<Todo>, q: string, ignoreCase: bool)
    ensures VisibleList(todos, q, ignoreCase) == Filter(todos, q, ignoreCase)
  {
    if |q| == 0 {
      forall i | 0 <= i < |todos| ensures Matches(todos[i], q, ignoreCase) {
        assert q == "";
        ContainsEmpty(todos[i].description, ignoreCase);
      }
      FilterAllMatch(todos, q, ignoreCase);
    }
  }

  /**
   * The visible list in full: an order-preserving sublist of the stored items
   * that holds every stored item that matches the query (each as often as it
   * is stored) and nothing else; with the empty query it is the stored list.
   */
  lemma VisibleListSpec(todos: seq<Todo>, q: string, ignoreCase: bool)
    ensures |q| == 0 ==> VisibleList(todos, q, ignoreCase) == todos
    ensures IsSubsequence(VisibleList(todos, q, ignoreCase), todos)
    ensures forall t :: t in VisibleList(todos, q, ignoreCase) <==> t in todos && Matches(t, q, ignoreCase)
    ensures forall t :: multiset(VisibleList(todos, q, ignoreCase))[t] ==
                        if Matches(t, q, ignoreCase) then multiset(todos)[t] else 0
  {
    VisibleListIsFilter(todos, q, ignoreCase);
    FilterIsSubsequence(todos, q, ignoreCase);
    forall t ensures t in Filter(todos, q, ignoreCase) <==> t in todos && Matches(t, q, ignoreCase) {
      FilterMembership(todos, q, ignoreCase, t);
    }
    forall t ensures multiset(Filter(todos, q, ignoreCase))[t] ==
                     if Matches(t, q, ignoreCase) then multiset(todos)[t] else 0 {
      FilterMultiplicity(todos, q, ignoreCase, t);
    }
  }

  /**
   * After an insert the visible list is the old one, followed by the new item
   * when it passes the search.
   */
  lemma VisibleListAfterInsert(todos: seq<Todo>, description: string, q: string, ignoreCase: bool)
    ensures VisibleList(Insert(todos, description), q, ignoreCase) ==
            VisibleList(todos, q, ignoreCase) +
            (if Matches(Insert(todos, description)[|todos|], q, ignoreCase) then [Insert(todos, description)[|todos|]] else [])
  {
    var r := Insert(todos, description);
    var added := r[|todos|];
    assert r == todos + [added];
    VisibleListIsFilter(todos, q, ignoreCase);
    VisibleListIsFilter(r, q, ignoreCase);
    FilterAppend(todos, [added], q, ignoreCase);
  }

  /** The case-sensitive search shows a sublist of what the case-insensitive one shows. */
  lemma {:induction false} SensitiveFilterWithinInsensitive(todos: seq<Todo>, q: string)
    ensures IsSubsequence(Filter(todos, q, false), Filter(todos, q, true))
  {
    if |todos| > 0 {
      var h := todos[0];
      var a := Filter(todos[1..], q, false);
      var b := Filter(todos[1..], q, true);
      SensitiveFilterWithinInsensitive(todos[1..], q);
      ContainsSensitiveImpliesInsensitive(h.description, q);
      if Matches(h, q, false) {
        assert Filter(todos, q, false) == [h] + a;
        assert Filter(todos, q, true) == [h] + b;
        SubsequenceTake(a, h, b);
      } else if Matches(h, q, true) {
        assert Filter(todos, q, false) == a;
        assert Filter(todos, q, true) == [h] + b;
        SubsequenceSkip(a, h, b);
      } else {
        assert Filter(todos, q, false) == a;
        assert Filter(todos, q, true) == b;
      }
    }
  }
}
