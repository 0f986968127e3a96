/** Environments as arrays of KEY=value strings and as maps (process/env.go). */
module Env {
  import opened Outcomes
  import opened Collections
  import opened Text

  type Vars = map<string, string>

  datatype Error = EmptyString | NotKeyValue(str: string) | EmptyKey(str: string)

  // ----- parsing

  function ParseVar(s: string): (r: Result<(string, string), Error>)
  {
    if s == "" then Err(EmptyString)
    else
      match SplitOnce(s, '=')
      case None => Err(NotKeyValue(s))
      case Some((key, value)) => if key == "" then Err(EmptyKey(s)) else Ok((key, value))
  }

  /** The first malformed string decides the error, a later value replaces an earlier one. */
  function Parsed(xs: seq<string>): (r: Result<Vars, Error>)
    ensures !r.Panic?
  {
    if xs == [] then Ok(map[])
    else
      match Parsed(xs[..|xs| - 1])
      case Err(e) => Err(e)
      case Ok(env) =>
        match ParseVar(xs[|xs| - 1])
        case Err(e) => Err(e)
        case Ok((key, value)) => Ok(env[key := value])
  }

  method NewEnv(xs: seq<string>) returns (r: Result<Vars, Error>)
    ensures r == Parsed(xs)
  {
    hide SplitOnce;
    var env: Vars := map[];
    for i := 0 to |xs|
      invariant Parsed(xs[..i]) == Ok(env)
    {
      var str := xs[i];
      assert xs[..i + 1][..i] == xs[..i];
      PrefixError(xs, i + 1);
      if str == "" {
        return Err(EmptyString);
      }
      var tokens := SplitOnce(str, '=');
      if tokens.None? {
        return Err(NotKeyValue(str));
      }
      var key, value := tokens.value.0, tokens.value.1;
      if key == "" {
        return Err(EmptyKey(str));
      }
      env := env[key := value];
    }
    assert xs[..|xs|] == xs;
    return Ok(env);
  }

  lemma {:induction false} PrefixError(xs: seq<string>, n: nat)
    requires n <= |xs|
    ensures Parsed(xs[..n]).Err? ==> Parsed(xs) == Parsed(xs[..n])
  {
    if n < |xs| {
      var ys := xs[..|xs| - 1];
      PrefixError(ys, n);
      assert ys[..n] == xs[..n];
    } else {
      assert xs[..n] == xs;
    }
  }

  // ----- what parsing means

  predicate PlainKey(key: string)
  {
    key != "" && '=' !in key
  }

  function Line(key: string, value: string): (s: string)
  {
    key + "=" + value
  }

  lemma ParseVarExact(s: string, key: string, value: string)
    ensures ParseVar(s) == Ok((key, value)) <==> s == Line(key, value) && PlainKey(key)
  {
    if s == Line(key, value) && PlainKey(key) {
      SplitOnceAt(key, value, '=');
    }
  }

  /** An array parses exactly when each of its strings does, and then each key has the value it has last. */
  lemma {:induction false} ParsedMeaning(xs: seq<string>)
    ensures Parsed(xs).Ok? <==> forall x | x in xs :: ParseVar(x).Ok?
    ensures Parsed(xs).Ok? ==>
      && (forall key | key in Parsed(xs).value :: PlainKey(key))
      && (forall key | key in Parsed(xs).value :: SetsLast(xs, key, Parsed(xs).value[key]))
      && (forall i | 0 <= i < |xs| :: ParseVar(xs[i]).value.0 in Parsed(xs).value)
  {
    hide ParseVar, PlainKey;
    if xs != [] {
      var ys, x := xs[..|xs| - 1], xs[|xs| - 1];
      ParsedMeaning(ys);
      assert xs == ys + [x];
      if Parsed(xs).Ok? {
        var (key, value) := ParseVar(x).value;
        ParseVarExact(x, key, value);
        LastIsSet(ys, x);
        forall k | k in Parsed(ys).value && k != key
          ensures SetsLast(xs, k, Parsed(ys).value[k])
        {
          StillSet(ys, x, k, Parsed(ys).value[k]);
        }
      }
    }
  }

  /** Some string gives the key this value and no later one mentions the key. */
  ghost predicate SetsLast(xs: seq<string>, key: string, value: string)
  {
    exists i :: 0 <= i < |xs| && ParseVar(xs[i]) == Ok((key, value)) && NotSetAfter(xs, i, key)
  }

  predicate NotSetAfter(xs: seq<string>, i: nat, key: string)
  {
    forall j | i < j < |xs| :: ParseVar(xs[j]).Ok? ==> ParseVar(xs[j]).value.0 != key
  }

  lemma LastIsSet(ys: seq<string>, x: string)
    requires ParseVar(x).Ok?
    ensures SetsLast(ys + [x], ParseVar(x).value.0, ParseVar(x).value.1)
  {
    hide ParseVar;
    var xs := ys + [x];
    assert xs[|ys|] == x && NotSetAfter(xs, |ys|, ParseVar(x).value.0);
  }

  lemma StillSet(ys: seq<string>, x: string, key: string, value: string)
    requires SetsLast(ys, key, value) && ParseVar(x).Ok? && ParseVar(x).value.0 != key
    ensures SetsLast(ys + [x], key, value)
  {
    hide ParseVar;
    var i :| 0 <= i < |ys| && ParseVar(ys[i]) == Ok((key, value)) && NotSetAfter(ys, i, key);
    var xs := ys + [x];
    assert xs[i] == ys[i];
    assert NotSetAfter(xs, i, key);
  }

  // ----- merging

  method Merge(env: Vars, other: Vars) returns (merged: Vars)
    ensures forall key :: key in merged <==> key in env || key in other
    ensures forall key | key in merged :: merged[key] == if key in other then other[key] else env[key]
  {
    merged := Overlay(map[], env);
    merged := Overlay(merged, other);
  }

  /** One loop of Merge: visits the entries in any order. */
  method Overlay(base: Vars, top: Vars) returns (merged: Vars)
    ensures merged == base + top
  {
    hide Part;
    merged := base;
    var keys := top.Keys;
    PartEnds(base, top);
    while keys != {}
      invariant keys <= top.Keys && merged == base + Part(top, keys)
      decreases |keys|
    {
      var key :| key in keys;
      PartNext(base, top, keys, key);
      merged := merged[key := top[key]];
      keys := keys - {key};
    }
  }

  /** The entries already visited when these keys are still to come. */
  function Part(env: Vars, keys: set<string>): (r: Vars)
  {
    map key | key in env && key !in keys :: env[key]
  }

  lemma PartEnds(base: Vars, top: Vars)
    ensures base + Part(top, top.Keys) == base && Part(top, {}) == top
  {
  }

  lemma PartNext(base: Vars, top: Vars, keys: set<string>, key: string)
    requires key in keys && key in top
    ensures base + Part(top, keys - {key}) == (base + Part(top, keys))[key := top[key]]
  {
  }

  /** Parsing a concatenation merges the two maps, or fails as the first part that fails. */
  lemma {:induction false} ParsedConcat(xs: seq<string>, ys: seq<string>)
    ensures Parsed(xs + ys) ==
      if Parsed(xs).Ok? && Parsed(ys).Ok? then Ok(Parsed(xs).value + Parsed(ys).value)
      else if Parsed(xs).Err? then Parsed(xs)
      else Parsed(ys)
  {
    hide ParseVar;
    if ys == [] {
      assert xs + ys == xs;
      assert Parsed(xs).Ok? ==> Parsed(xs).value + map[] == Parsed(xs).value;
    } else {
      var rest, y := ys[..|ys| - 1], ys[|ys| - 1];
      ParsedConcat(xs, rest);
      assert (xs + ys)[..|xs + ys| - 1] == xs + rest;
      if Parsed(xs).Ok? && Parsed(rest).Ok? && ParseVar(y).Ok? {
        var (key, value) := ParseVar(y).value;
        var a, b := Parsed(xs).value, Parsed(rest).value;
        assert (a + b)[key := value] == a + b[key := value];
      }
    }
  }

  // ----- the sorted array

  predicate Leq(a: string, b: string)
  {
    a == "" || (b != "" && (a[0] < b[0] || (a[0] == b[0] && Leq(a[1..], b[1..]))))
  }

  /** One string is a prefix of the other, or the first characters that differ decide by their codes. */
  ghost predicate Before(a: string, b: string)
  {
    a <= b || exists i :: 0 <= i < |a| && i < |b| && a[..i] == b[..i] && a[i] as int < b[i] as int
  }

  lemma {:induction false} LeqIsLexicographic(a: string, b: string)
    ensures Leq(a, b) <==> Before(a, b)
  {
    if a != "" && b != "" {
      LeqIsLexicographic(a[1..], b[1..]);
      if a[0] == b[0] {
        SameFirstChar(a, b);
      }
    }
  }

  lemma SameFirstChar(a: string, b: string)
    requires a != "" && b != "" && a[0] == b[0]
    ensures Before(a, b) <==> Before(a[1..], b[1..])
  {
    assert a == [a[0]] + a[1..] && b == [b[0]] + b[1..];
    if i :| 0 <= i < |a| && i < |b| && a[..i] == b[..i] && a[i] as int < b[i] as int {
      assert a[1..][..i - 1] == a[..i][1..] && b[1..][..i - 1] == b[..i][1..];
      assert a[1..][i - 1] == a[i];
    }
    if i :| 0 <= i < |a[1..]| && i < |b[1..]| && a[1..][..i] == b[1..][..i] && a[1..][i] as int < b[1..][i] as int {
      assert a[..i + 1] == [a[0]] + a[1..][..i] && b[..i + 1] == [b[0]] + b[1..][..i];
      assert a[i + 1] == a[1..][i];
    }
  }

  lemma {:induction false} LeqTotal(a: string, b: string)
    ensures Leq(a, b) || Leq(b, a)
  {
    if a != "" && b != "" {
      LeqTotal(a[1..], b[1..]);
    }
  }

  lemma {:induction false} LeqAntisymmetric(a: string, b: string)
    requires Leq(a, b) && Leq(b, a)
    ensures a == b
  {
    if a != "" && b != "" {
      LeqAntisymmetric(a[1..], b[1..]);
      assert a == [a[0]] + a[1..] && b == [b[0]] + b[1..];
    }
  }

  lemma {:induction false} LeqTransitive(a: string, b: string, c: string)
    requires Leq(a, b) && Leq(b, c)
    ensures Leq(a, c)
  {
    if a != "" && a[0] == b[0] == c[0] {
      LeqTransitive(a[1..], b[1..], c[1..]);
    }
  }

  predicate Sorted(s: seq<string>)
  {
    forall i, j | 0 <= i < j < |s| :: Leq(s[i], s[j])
  }

  lemma SortedIsOrdered(s: seq<string>)
    ensures Sorted(s) <==> forall i, j | 0 <= i < j < |s| :: Before(s[i], s[j])
  {
    hide Leq, Before;
    forall i, j | 0 <= i < j < |s|
      ensures Leq(s[i], s[j]) <==> Before(s[i], s[j])
    {
      LeqIsLexicographic(s[i], s[j]);
    }
  }

  /** The library's sort, as an insertion sort. */
  function Sort(s: seq<string>): (r: seq<string>)
    ensures Sorted(r) && multiset(r) == multiset(s)
  {
    if s == [] then []
    else
      var r := Insert(Sort(s[1..]), s[0]);
      assert s == [s[0]] + s[1..];
      r
  }

  function Insert(s: seq<string>, x: string): (r: seq<string>)
    requires Sorted(s)
    ensures Sorted(r) && multiset(r) == multiset(s) + multiset{x}
  {
    if s == [] then [x]
    else if Leq(x, s[0]) then
      BelowAll(x, s);
      [x] + s
    else
      var r := Insert(s[1..], x);
      assert s == [s[0]] + s[1..];
      InsertAbove(s, x, r);
      [s[0]] + r
  }

  lemma BelowAll(x: string, s: seq<string>)
    requires s != [] && Sorted(s) && Leq(x, s[0])
    ensures Sorted([x] + s)
  {
    forall i | 0 <= i < |s|
      ensures Leq(x, s[i])
    {
      if i > 0 {
        LeqTransitive(x, s[0], s[i]);
      }
    }
  }

  lemma InsertAbove(s: seq<string>, x: string, r: seq<string>)
    requires s != [] && Sorted(s) && !Leq(x, s[0]) && Sorted(r) && multiset(r) == multiset(s[1..]) + multiset{x}
    ensures Sorted([s[0]] + r)
  {
    hide Leq;
    LeqTotal(x, s[0]);
    forall i | 0 <= i < |r|
      ensures Leq(s[0], r[i])
    {
      assert r[i] in multiset(r);
      if r[i] != x {
        assert r[i] in s[1..];
        var j :| 0 <= j < |s[1..]| && s[1..][j] == r[i];
        assert s[j + 1] == r[i];
      }
    }
  }

  lemma {:induction false} SortedUnique(a: seq<string>, b: seq<string>)
    requires Sorted(a) && Sorted(b) && multiset(a) == multiset(b)
    ensures a == b
  {
    hide Sorted;
    SameLength(a, b);
    if a != [] {
      SameHead(a, b);
      SortedTail(a);
      SortedTail(b);
      SortedUnique(a[1..], b[1..]);
      assert a == [a[0]] + a[1..] && b == [b[0]] + b[1..];
    }
  }

  lemma SameHead(a: seq<string>, b: seq<string>)
    requires a != [] && b != [] && Sorted(a) && Sorted(b) && multiset(a) == multiset(b)
    ensures a[0] == b[0]
  {
    hide Leq;
    HeadBelow(a, b[0]);
    HeadBelow(b, a[0]);
    if a[0] != b[0] {
      LeqAntisymmetric(a[0], b[0]);
    }
  }

  lemma HeadBelow(a: seq<string>, x: string)
    requires a != [] && Sorted(a) && x in multiset(a)
    ensures a[0] == x || Leq(a[0], x)
  {
    hide Leq;
    var i :| 0 <= i < |a| && a[i] == x;
  }

  lemma SortedTail(a: seq<string>)
    requires a != [] && Sorted(a)
    ensures Sorted(a[1..]) && multiset(a[1..]) == multiset(a) - multiset{a[0]}
  {
    hide Leq;
    assert a == [a[0]] + a[1..];
  }

  lemma SameLength(a: seq<string>, b: seq<string>)
    requires multiset(a) == multiset(b)
    ensures |a| == |b|
  {
    assert |multiset(a)| == |a| && |multiset(b)| == |b|;
  }

  // ----- the entries of a map in some order

  /** The order in which an iteration over the map visits its keys. */
  predicate Visits(order: seq<string>, env: Vars)
  {
    NoDup(order) && Elems(order) == env.Keys
  }

  function Lines(env: Vars, order: seq<string>): (r: seq<string>)
    requires forall key | key in order :: key in env
  {
    seq(|order|, i requires 0 <= i < |order| => Line(order[i], env[order[i]]))
  }

  ghost predicate IsArray(env: Vars, a: seq<string>)
  {
    Sorted(a) && exists order :: Visits(order, env) && multiset(a) == multiset(LinesIn(env, order))
  }

  function LinesIn(env: Vars, order: seq<string>): (r: seq<string>)
    requires Visits(order, env)
  {
    assert forall key | key in order :: key in Elems(order);
    Lines(env, order)
  }

  /** The keys visited, in order, with these keys still to come. */
  predicate Visiting(order: seq<string>, keys: set<string>, env: Vars)
  {
    NoDup(order) && Elems(order) == env.Keys - keys && keys <= env.Keys
  }

  lemma VisitNext(order: seq<string>, keys: set<string>, env: Vars, key: string)
    requires Visiting(order, keys, env) && key in keys
    ensures Visiting(order + [key], keys - {key}, env)
  {
    assert key !in Elems(order);
    NoDupAppend(order, key);
  }

  method Array(env: Vars) returns (a: seq<string>)
    ensures IsArray(env, a)
    ensures forall i, j | 0 <= i < j < |a| :: Before(a[i], a[j])
  {
    hide Line, Sort, Sorted, Visiting, IsArray, Before;
    var buffer := new string[|env|];
    var i := 0;
    var keys := env.Keys;
    ghost var order: seq<string> := [];
    VisitStart(env);
    while keys != {}
      invariant 0 <= i && i + |keys| == |env| && |order| == i
      invariant Visiting(order, keys, env)
      invariant forall k | 0 <= k < i :: order[k] in env && buffer[k] == Line(order[k], env[order[k]])
      decreases |keys|
    {
      var key :| key in keys;
      VisitNext(order, keys, env, key);
      KeysLeft(order, keys, env);
      buffer[i] := Line(key, env[key]);
      order := order + [key];
      keys := keys - {key};
      i := i + 1;
    }
    a := Sort(buffer[..]);
    VisitedAll(env, order, buffer[..], a);
    SortedIsOrdered(a);
  }

  lemma VisitStart(env: Vars)
    ensures Visiting([], env.Keys, env)
  {
  }

  lemma KeysLeft(order: seq<string>, keys: set<string>, env: Vars)
    requires Visiting(order, keys, env)
    ensures keys <= env.Keys
  {
  }

  lemma VisitedAll(env: Vars, order: seq<string>, lines: seq<string>, a: seq<string>)
    requires Visiting(order, {}, env) && |lines| == |order|
    requires forall k | 0 <= k < |order| :: order[k] in env && lines[k] == Line(order[k], env[order[k]])
    requires Sorted(a) && multiset(a) == multiset(lines)
    ensures IsArray(env, a)
  {
    hide Sorted, Line;
    assert Visits(order, env);
    assert lines == LinesIn(env, order);
  }

  /** The array does not depend on the order of iteration. */
  lemma ArrayUnique(env: Vars, a: seq<string>, b: seq<string>)
    requires IsArray(env, a) && IsArray(env, b)
    ensures a == b
  {
    hide Sorted, Line;
    var o :| Visits(o, env) && multiset(a) == multiset(LinesIn(env, o));
    var p :| Visits(p, env) && multiset(b) == multiset(LinesIn(env, p));
    SameLines(env, o, p);
    SortedUnique(a, b);
  }

  lemma {:induction false} SameLines(env: Vars, o: seq<string>, p: seq<string>)
    requires NoDup(o) && NoDup(p) && Elems(o) == Elems(p)
    requires (forall key | key in o :: key in env) && (forall key | key in p :: key in env)
    ensures multiset(Lines(env, o)) == multiset(Lines(env, p))
  {
    hide Line, NoDup;
    NoDupSize(o);
    NoDupSize(p);
    if o != [] {
      var i := |o| - 1;
      var x := o[i];
      assert x in Elems(o);
      var j :| 0 <= j < |p| && p[j] == x;
      RemoveAtNoDup(o, i);
      RemoveAtNoDup(p, j);
      SameLines(env, RemoveAt(o, i), RemoveAt(p, j));
      LinesRemove(env, o, i);
      LinesRemove(env, p, j);
    }
  }

  lemma LinesRemove(env: Vars, o: seq<string>, i: nat)
    requires i < |o| && forall key | key in o :: key in env
    ensures forall key | key in RemoveAt(o, i) :: key in env
    ensures multiset(Lines(env, o)) == multiset(Lines(env, RemoveAt(o, i))) + multiset{Line(o[i], env[o[i]])}
  {
    hide Line;
    assert Lines(env, RemoveAt(o, i)) == RemoveAt(Lines(env, o), i);
    RemoveAtMultiset(Lines(env, o), i);
    assert Lines(env, o)[i] in multiset(Lines(env, o));
  }

  // ----- the round trip

  lemma ArrayElements(env: Vars, a: seq<string>)
    requires IsArray(env, a)
    ensures forall x | x in a :: exists key :: key in env && x == Line(key, env[key])
    ensures forall key | key in env :: Line(key, env[key]) in a
  {
    hide Sorted, Line;
    var o :| Visits(o, env) && multiset(a) == multiset(LinesIn(env, o));
    var lines := LinesIn(env, o);
    forall x | x in a
      ensures exists key :: key in env && x == Line(key, env[key])
    {
      assert x in multiset(a) && x in lines;
      var i :| 0 <= i < |lines| && lines[i] == x;
      assert o[i] in Elems(o);
    }
    forall key | key in env
      ensures Line(key, env[key]) in a
    {
      assert key in Elems(o);
      var i :| 0 <= i < |o| && o[i] == key;
      assert lines[i] in multiset(lines);
    }
  }

  lemma LineParses(env: Vars, a: seq<string>, x: string)
    requires IsArray(env, a) && x in a && forall key | key in env :: PlainKey(key)
    ensures ParseVar(x).Ok? && ParseVar(x).value.0 in env && ParseVar(x).value.1 == env[ParseVar(x).value.0]
  {
    hide IsArray, ParseVar, PlainKey, Line;
    ArrayElements(env, a);
    var key :| key in env && x == Line(key, env[key]);
    ParseVarExact(x, key, env[key]);
  }

  lemma LineIsThere(env: Vars, a: seq<string>, key: string)
    requires IsArray(env, a) && key in env && PlainKey(key)
    ensures exists i :: 0 <= i < |a| && ParseVar(a[i]) == Ok((key, env[key]))
  {
    hide IsArray, ParseVar, PlainKey, Line;
    ArrayElements(env, a);
    var x := Line(key, env[key]);
    ParseVarExact(x, key, env[key]);
    var i :| 0 <= i < |a| && a[i] == x;
  }

  lemma PlainKeysSurvive(env: Vars, a: seq<string>)
    requires IsArray(env, a) && forall key | key in env :: PlainKey(key)
    ensures Parsed(a) == Ok(env)
  {
    hide IsArray, ParseVar, PlainKey, Parsed, NotSetAfter;
    forall x | x in a
      ensures ParseVar(x).Ok?
    {
      LineParses(env, a, x);
    }
    ParsedMeaning(a);
    var m := Parsed(a).value;
    forall key | key in m
      ensures key in env && m[key] == env[key]
    {
      assert SetsLast(a, key, m[key]);
      var i :| 0 <= i < |a| && ParseVar(a[i]) == Ok((key, m[key]));
      LineParses(env, a, a[i]);
    }
    forall key | key in env
      ensures key in m
    {
      LineIsThere(env, a, key);
    }
    assert m == env;
  }

  /** Parsing the array of a map gives the map back exactly when its keys are non-empty and free of '='. */
  lemma ParseUndoesArray(env: Vars, a: seq<string>)
    requires IsArray(env, a)
    ensures Parsed(a) == Ok(env) <==> forall key | key in env :: PlainKey(key)
  {
    hide IsArray, PlainKey, Parsed;
    if Parsed(a) == Ok(env) {
      ParsedMeaning(a);
    }
    if forall key | key in env :: PlainKey(key) {
      PlainKeysSurvive(env, a);
    }
  }

  /** A key with '=' or an empty key is not recovered. */
  lemma BadKeysAreLost(value: string, a: seq<string>, b: seq<string>)
    requires IsArray(map["A=B" := value], a) && IsArray(map["" := value], b)
    ensures Parsed(a) != Ok(map["A=B" := value]) && Parsed(b) != Ok(map["" := value])
  {
    hide IsArray, Parsed;
    var withEquals, empty: Vars := map["A=B" := value], map["" := value];
    assert "A=B"[1] == '=' && "A=B" in withEquals && !PlainKey("A=B");
    assert "" in empty && !PlainKey("");
    ParseUndoesArray(withEquals, a);
    ParseUndoesArray(empty, b);
  }
}
