/** The string functions of the Go library that the codecs use. */
module Text {
  import opened Outcomes

  /** Splits at the first separator. */
  function SplitOnce(s: string, c: char): (r: Option<(string, string)>)
    ensures r.None? ==> c !in s
    ensures r.Some? ==> c !in r.value.0 && s == r.value.0 + [c] + r.value.1
  {
    if s == "" then None
    else if s[0] == c then Some(("", s[1..]))
    else
      match SplitOnce(s[1..], c)
      case None => None
      case Some((a, b)) => Some(([s[0]] + a, b))
  }

  lemma {:induction false} SplitOnceAt(a: string, b: string, c: char)
    requires c !in a
    ensures SplitOnce(a + [c] + b, c) == Some((a, b))
  {
    var s := a + [c] + b;
    if a == "" {
      assert s[1..] == b;
    } else {
      SplitOnceAt(a[1..], b, c);
      assert s[1..] == a[1..] + [c] + b;
      assert [a[0]] + a[1..] == a;
    }
  }

  lemma {:induction false} SplitOnceMisses(s: string, c: char)
    requires c !in s
    ensures SplitOnce(s, c) == None
  {
    if s != "" {
      SplitOnceMisses(s[1..], c);
    }
  }

  function Split(s: string, c: char): (parts: seq<string>)
    ensures forall p | p in parts :: c !in p
    decreases |s|
  {
    match SplitOnce(s, c)
    case None => [s]
    case Some((a, b)) => [a] + Split(b, c)
  }

  function Join(parts: seq<string>, c: char): (s: string)
  {
    if parts == [] then ""
    else if |parts| == 1 then parts[0]
    else parts[0] + [c] + Join(parts[1..], c)
  }

  /** Splitting undoes joining; only the empty list comes back as one empty string. */
  lemma {:induction false} SplitJoin(parts: seq<string>, c: char)
    requires forall p | p in parts :: c !in p
    ensures Split(Join(parts, c), c) == if parts == [] then [""] else parts
  {
    if |parts| >= 1 {
      assert parts[0] in parts;
    }
    if |parts| == 1 {
      SplitOnceMisses(parts[0], c);
    } else if |parts| > 1 {
      SplitJoin(parts[1..], c);
      SplitOnceAt(parts[0], Join(parts[1..], c), c);
      assert [parts[0]] + parts[1..] == parts;
    }
  }
}
