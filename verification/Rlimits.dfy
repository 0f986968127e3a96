/** Resource limits as text and as system limits (container_daemon/rlimits_manager.go). */
module Rlimits {
  import opened Outcomes
  import opened Text

  type uint64 = n: nat | n < 0x1_0000_0000_0000_0000

  type Limit = Option<uint64>

  datatype ResourceLimits = ResourceLimits(
    addressSpace: Limit, core: Limit, cpu: Limit, data: Limit, fsize: Limit,
    locks: Limit, memlock: Limit, msgqueue: Limit, nice: Limit, nofile: Limit,
    nproc: Limit, rss: Limit, rtprio: Limit, sigpending: Limit, stack: Limit)

  // ----- decimal numbers

  predicate IsDigit(c: char)
  {
    '0' <= c <= '9'
  }

  function Decimal(n: nat): (s: string)
    ensures s != "" && forall c | c in s :: IsDigit(c)
  {
    var last := '0' + (n % 10) as char;
    if n < 10 then [last] else Decimal(n / 10) + [last]
  }

  function DigitValue(c: char): (d: nat)
    requires IsDigit(c)
  {
    (c - '0') as nat
  }

  function Number(s: string): (n: nat)
    requires forall c | c in s :: IsDigit(c)
  {
    if s == "" then 0 else Number(s[..|s| - 1]) * 10 + DigitValue(s[|s| - 1])
  }

  /** White space a scan skips; a line end is not skipped. */
  predicate Blank(c: char)
  {
    var u := c as int;
    || u in {0x09, 0x0b, 0x0c, 0x0d, 0x20, 0x85, 0xa0, 0x1680, 0x2028, 0x2029, 0x202f, 0x205f, 0x3000}
    || 0x2000 <= u <= 0x200a
  }

  function SkipBlanks(s: string): (r: string)
  {
    if s != "" && Blank(s[0]) then SkipBlanks(s[1..]) else s
  }

  /** The longest run of digits at the front. */
  function LeadingDigits(s: string): (r: string)
    ensures r <= s && forall c | c in r :: IsDigit(c)
  {
    if s != "" && IsDigit(s[0]) then [s[0]] + LeadingDigits(s[1..]) else ""
  }

  /** Scanning a %d into a uint64; what follows the digits is ignored. */
  function ScanUint64(s: string): (r: Limit)
  {
    var digits := LeadingDigits(SkipBlanks(s));
    if digits == "" || Number(digits) >= 0x1_0000_0000_0000_0000 then None else Some(Number(digits))
  }

  /** Blanks, then all the digits there are up to j, then anything. */
  predicate ScansAt(s: string, i: nat, j: nat)
  {
    && i < j <= |s| && (forall k | 0 <= k < i :: Blank(s[k])) && (forall k | i <= k < j :: IsDigit(s[k]))
    && (j < |s| ==> !IsDigit(s[j]))
  }

  lemma DigitsOf(s: string, i: nat, j: nat)
    requires ScansAt(s, i, j)
    ensures forall c | c in s[i..j] :: IsDigit(c)
  {
  }

  lemma {:induction false} LeadingDigitsAt(s: string, j: nat)
    requires j <= |s| && (forall k | 0 <= k < j :: IsDigit(s[k])) && (j < |s| ==> !IsDigit(s[j]))
    ensures LeadingDigits(s) == s[..j]
  {
    if j > 0 {
      LeadingDigitsAt(s[1..], j - 1);
      assert s[..j] == [s[0]] + s[1..][..j - 1];
    }
  }

  lemma {:induction false} DigitsAfterBlanks(s: string, i: nat, j: nat)
    requires ScansAt(s, i, j)
    ensures LeadingDigits(SkipBlanks(s)) == s[i..j]
  {
    if i == 0 {
      LeadingDigitsAt(s, j);
      assert IsDigit(s[0]) && s[0..j] == s[..j];
    } else {
      assert Blank(s[0]);
      DigitsAfterBlanks(s[1..], i - 1, j - 1);
      assert s[1..][i - 1..j - 1] == s[i..j];
    }
  }

  lemma {:induction false} ScanPosition(s: string) returns (i: nat, j: nat)
    requires LeadingDigits(SkipBlanks(s)) != ""
    ensures ScansAt(s, i, j)
  {
    if s != "" && Blank(s[0]) {
      i, j := ScanPosition(s[1..]);
      i, j := i + 1, j + 1;
      assert forall k | 0 < k < |s| :: s[k] == s[1..][k - 1];
    } else {
      i := 0;
      j := 0;
      while j < |s| && IsDigit(s[j])
        invariant j <= |s| && forall k | 0 <= k < j :: IsDigit(s[k])
      {
        j := j + 1;
      }
      LeadingDigitsAt(s, j);
    }
  }

  /** A scan succeeds exactly if blanks and then digits lead the text, and the digits as a number fit the type. */
  lemma ScanExact(s: string, v: uint64)
    ensures ScanUint64(s) == Some(v) <==> exists i, j :: ScansAs(s, i, j, v)
  {
    hide SkipBlanks, LeadingDigits, Number;
    if ScanUint64(s) == Some(v) {
      var i, j := ScanPosition(s);
      DigitsAfterBlanks(s, i, j);
      assert ScansAs(s, i, j, v);
    }
    if i, j :| ScansAs(s, i, j, v) {
      DigitsAfterBlanks(s, i, j);
    }
  }

  predicate ScansAs(s: string, i: nat, j: nat, v: nat)
  {
    ScansAt(s, i, j) && (DigitsOf(s, i, j); Number(s[i..j]) == v)
  }

  lemma {:induction false} NumberDecimal(n: nat)
    ensures Number(Decimal(n)) == n
  {
    var s := Decimal(n);
    if n >= 10 {
      NumberDecimal(n / 10);
      assert s[..|s| - 1] == Decimal(n / 10);
    }
  }

  lemma {:induction false} AllDigits(s: string)
    requires forall c | c in s :: IsDigit(c)
    ensures LeadingDigits(s) == s
  {
    if s != "" {
      AllDigits(s[1..]);
      assert s == [s[0]] + s[1..];
    }
  }

  lemma ScanDecimal(n: uint64)
    ensures ScanUint64(Decimal(n)) == Some(n)
  {
    var s := Decimal(n);
    assert IsDigit(s[0]);
    AllDigits(s);
    NumberDecimal(n);
  }

  // ----- the limits in the order in which they are encoded

  function Name(k: nat): (s: string)
  {
    match k
    case 0 => "RLIMIT_AS"
    case 1 => "RLIMIT_CORE"
    case 2 => "RLIMIT_CPU"
    case 3 => "RLIMIT_DATA"
    case 4 => "RLIMIT_FSIZE"
    case 5 => "RLIMIT_LOCKS"
    case 6 => "RLIMIT_MEMLOCK"
    case 7 => "RLIMIT_MSGQUEUE"
    case 8 => "RLIMIT_NICE"
    case 9 => "RLIMIT_NOFILE"
    case 10 => "RLIMIT_NPROC"
    case 11 => "RLIMIT_RSS"
    case 12 => "RLIMIT_RTPRIO"
    case 13 => "RLIMIT_SIGPENDING"
    case _ => "RLIMIT_STACK"
  }

  function Value(l: ResourceLimits, k: nat): (v: Limit)
  {
    match k
    case 0 => l.addressSpace
    case 1 => l.core
    case 2 => l.cpu
    case 3 => l.data
    case 4 => l.fsize
    case 5 => l.locks
    case 6 => l.memlock
    case 7 => l.msgqueue
    case 8 => l.nice
    case 9 => l.nofile
    case 10 => l.nproc
    case 11 => l.rss
    case 12 => l.rtprio
    case 13 => l.sigpending
    case _ => l.stack
  }

  predicate Plain(s: string)
  {
    forall c | c in s :: c != ',' && c != '='
  }

  /** The two letters after the common prefix tell the names apart, and they are in alphabetical order. */
  function Letters(k: nat): (n: nat)
  {
    var s := Name(k);
    if |s| > 8 then 0x1_0000_0000 * (s[7] as nat) + s[8] as nat else 0
  }

  lemma NamePlain(k: nat)
    ensures Plain(Name(k))
  {
  }

  lemma LettersIncrease(k: nat)
    requires k < 14
    ensures Letters(k) < Letters(k + 1)
  {
  }

  lemma {:induction false} NamesDistinct(i: nat, j: nat)
    requires i < j < 15
    ensures Letters(i) < Letters(j) && Name(i) != Name(j)
    decreases j
  {
    hide Letters, Name;
    LettersIncrease(j - 1);
    if i < j - 1 {
      NamesDistinct(i, j - 1);
    }
    assert Letters(i) < Letters(j);
    SameLetters(i, j);
  }

  lemma SameLetters(i: nat, j: nat)
    ensures Name(i) == Name(j) ==> Letters(i) == Letters(j)
  {
  }

  // ----- encoding

  function Entry(name: string, v: Limit): (r: seq<string>)
  {
    if v.None? then [] else [name + "=" + Decimal(v.value)]
  }

  /** The entries of the first n limits. */
  function Entries(l: ResourceLimits, n: nat): (r: seq<string>)
  {
    if n == 0 then [] else Entries(l, n - 1) + Entry(Name(n - 1), Value(l, n - 1))
  }

  function Encoded(l: ResourceLimits): (s: string)
  {
    Join(Entries(l, 15), ',')
  }

  // ----- decoding

  function ParseEntry(s: string): (r: Option<(string, uint64)>)
  {
    match SplitOnce(s, '=')
    case None => None
    case Some((name, text)) =>
      match ScanUint64(text)
      case None => None
      case Some(v) => Some((name, v))
  }

  function Parsed(parts: seq<string>): (env: map<string, uint64>)
  {
    if parts == [] then map[]
    else
      var env := Parsed(parts[..|parts| - 1]);
      match ParseEntry(parts[|parts| - 1])
      case None => env
      case Some((name, v)) => env[name := v]
  }

  function Lookup(env: map<string, uint64>, name: string): (v: Limit)
  {
    if name in env then Some(env[name]) else None
  }

  /** An entry is a name, the first '=', and a text that starts with a number. */
  lemma ParseEntryExact(s: string, name: string, v: uint64)
    ensures ParseEntry(s) == Some((name, v)) <==>
      '=' !in name && exists text :: s == name + "=" + text && ScanUint64(text) == Some(v)
  {
    hide ScanUint64;
    if text :| '=' !in name && s == name + "=" + text && ScanUint64(text) == Some(v) {
      SplitOnceAt(name, text, '=');
    }
  }

  /** Entry i sets the name, and no later entry does. */
  predicate SetLast(parts: seq<string>, i: nat, name: string, v: uint64)
  {
    && i < |parts| && ParseEntry(parts[i]) == Some((name, v))
    && forall j | i < j < |parts| && ParseEntry(parts[j]).Some? :: ParseEntry(parts[j]).value.0 != name
  }

  /** Entries that do not parse are skipped, and of several the last one counts. */
  lemma {:induction false} ParsedMeaning(parts: seq<string>, name: string, v: uint64)
    ensures Lookup(Parsed(parts), name) == Some(v) <==> exists i: nat :: SetLast(parts, i, name, v)
  {
    hide ParseEntry;
    if parts != [] {
      var k := |parts| - 1;
      ParsedMeaning(parts[..k], name, v);
      var e := ParseEntry(parts[k]);
      if e.Some? && e.value.0 == name {
        if e.value.1 == v {
          assert SetLast(parts, k, name, v);
        }
        assert forall i: nat | SetLast(parts, i, name, v) :: i == k;
      } else {
        forall i: nat
          ensures SetLast(parts, i, name, v) <==> SetLast(parts[..k], i, name, v)
        {
        }
      }
    }
  }

  function FromEnv(env: map<string, uint64>): (l: ResourceLimits)
  {
    ResourceLimits(
      Lookup(env, "RLIMIT_AS"),
      Lookup(env, "RLIMIT_CORE"),
      Lookup(env, "RLIMIT_CPU"),
      Lookup(env, "RLIMIT_DATA"),
      Lookup(env, "RLIMIT_FSIZE"),
      Lookup(env, "RLIMIT_LOCKS"),
      Lookup(env, "RLIMIT_MEMLOCK"),
      Lookup(env, "RLIMIT_MSGQUEUE"),
      Lookup(env, "RLIMIT_NICE"),
      Lookup(env, "RLIMIT_NOFILE"),
      Lookup(env, "RLIMIT_NPROC"),
      Lookup(env, "RLIMIT_RSS"),
      Lookup(env, "RLIMIT_RTPRIO"),
      Lookup(env, "RLIMIT_SIGPENDING"),
      Lookup(env, "RLIMIT_STACK"))
  }

  lemma DecodedValue(env: map<string, uint64>, k: nat)
    ensures Value(FromEnv(env), k) == Lookup(env, Name(k))
  {
  }

  lemma SameValues(a: ResourceLimits, b: ResourceLimits)
    requires forall k: nat | k < 15 :: Value(a, k) == Value(b, k)
    ensures a == b
  {
    assert Value(a, 0) == Value(b, 0) && Value(a, 1) == Value(b, 1) && Value(a, 2) == Value(b, 2);
    assert Value(a, 3) == Value(b, 3) && Value(a, 4) == Value(b, 4) && Value(a, 5) == Value(b, 5);
    assert Value(a, 6) == Value(b, 6) && Value(a, 7) == Value(b, 7) && Value(a, 8) == Value(b, 8);
    assert Value(a, 9) == Value(b, 9) && Value(a, 10) == Value(b, 10) && Value(a, 11) == Value(b, 11);
    assert Value(a, 12) == Value(b, 12) && Value(a, 13) == Value(b, 13) && Value(a, 14) == Value(b, 14);
  }

  // ----- the methods

  method EncodeLimits(l: ResourceLimits) returns (s: string)
    ensures s == Encoded(l)
  {
    hide Entries, Entry, Join;
    var limits := [];
    NoEntries(l);
    limits := AppendLimit(limits, "RLIMIT_AS", l.addressSpace);
    NextEntry(l, 0, "RLIMIT_AS", l.addressSpace);
    limits := AppendLimit(limits, "RLIMIT_CORE", l.core);
    NextEntry(l, 1, "RLIMIT_CORE", l.core);
    limits := AppendLimit(limits, "RLIMIT_CPU", l.cpu);
    NextEntry(l, 2, "RLIMIT_CPU", l.cpu);
    limits := AppendLimit(limits, "RLIMIT_DATA", l.data);
    NextEntry(l, 3, "RLIMIT_DATA", l.data);
    limits := AppendLimit(limits, "RLIMIT_FSIZE", l.fsize);
    NextEntry(l, 4, "RLIMIT_FSIZE", l.fsize);
    limits := AppendLimit(limits, "RLIMIT_LOCKS", l.locks);
    NextEntry(l, 5, "RLIMIT_LOCKS", l.locks);
    limits := AppendLimit(limits, "RLIMIT_MEMLOCK", l.memlock);
    NextEntry(l, 6, "RLIMIT_MEMLOCK", l.memlock);
    limits := AppendLimit(limits, "RLIMIT_MSGQUEUE", l.msgqueue);
    NextEntry(l, 7, "RLIMIT_MSGQUEUE", l.msgqueue);
    limits := AppendLimit(limits, "RLIMIT_NICE", l.nice);
    NextEntry(l, 8, "RLIMIT_NICE", l.nice);
    limits := AppendLimit(limits, "RLIMIT_NOFILE", l.nofile);
    NextEntry(l, 9, "RLIMIT_NOFILE", l.nofile);
    limits := AppendLimit(limits, "RLIMIT_NPROC", l.nproc);
    NextEntry(l, 10, "RLIMIT_NPROC", l.nproc);
    limits := AppendLimit(limits, "RLIMIT_RSS", l.rss);
    NextEntry(l, 11, "RLIMIT_RSS", l.rss);
    limits := AppendLimit(limits, "RLIMIT_RTPRIO", l.rtprio);
    NextEntry(l, 12, "RLIMIT_RTPRIO", l.rtprio);
    limits := AppendLimit(limits, "RLIMIT_SIGPENDING", l.sigpending);
    NextEntry(l, 13, "RLIMIT_SIGPENDING", l.sigpending);
    limits := AppendLimit(limits, "RLIMIT_STACK", l.stack);
    NextEntry(l, 14, "RLIMIT_STACK", l.stack);
    s := Join(limits, ',');
  }

  method AppendLimit(limits: seq<string>, name: string, v: Limit) returns (r: seq<string>)
    ensures r == limits + Entry(name, v)
  {
    r := limits;
    if v.Some? {
      r := r + [name + "=" + Decimal(v.value)];
    }
  }

  lemma NoEntries(l: ResourceLimits)
    ensures Entries(l, 0) == []
  {
  }

  lemma NextEntry(l: ResourceLimits, k: nat, name: string, v: Limit)
    requires name == Name(k) && v == Value(l, k)
    ensures Entries(l, k + 1) == Entries(l, k) + Entry(name, v)
  {
  }

  method Decode(s: string) returns (env: map<string, uint64>)
    ensures env == Parsed(Split(s, ','))
  {
    hide SplitOnce, Split, ScanUint64;
    env := map[];
    var parts := Split(s, ',');
    for i := 0 to |parts|
      invariant env == Parsed(parts[..i])
    {
      assert parts[..i + 1][..i] == parts[..i];
      var tokens := SplitOnce(parts[i], '=');
      if tokens.Some? {
        var scanned := ScanUint64(tokens.value.1);
        if scanned.Some? {
          env := env[tokens.value.0 := scanned.value];
        }
      }
    }
    assert parts[..|parts|] == parts;
  }

  // ----- the round trip

  lemma EntryParses(name: string, v: uint64)
    requires Plain(name)
    ensures ParseEntry(name + "=" + Decimal(v)) == Some((name, v))
  {
    SplitOnceAt(name, Decimal(v), '=');
    ScanDecimal(v);
  }

  lemma {:induction false} EntriesPlain(l: ResourceLimits, n: nat)
    ensures forall p | p in Entries(l, n) :: ',' !in p
  {
    hide Name, Value;
    if n > 0 {
      EntriesPlain(l, n - 1);
      NamePlain(n - 1);
    }
  }

  /** Parsing the entries of the first n limits gives these limits under their names and nothing else. */
  lemma {:induction false} EntriesParse(l: ResourceLimits, n: nat)
    requires n <= 15
    ensures var env := Parsed(Entries(l, n));
      && (forall k: nat | k < n :: Lookup(env, Name(k)) == Value(l, k))
      && (forall name | name in env :: exists k: nat :: k < n && name == Name(k))
  {
    hide Name, Value, ParseEntry, Decimal;
    if n > 0 {
      var name, v := Name(n - 1), Value(l, n - 1);
      EntriesParse(l, n - 1);
      var before := Entries(l, n - 1);
      forall k: nat | k < n - 1
        ensures Name(k) != name
      {
        NamesDistinct(k, n - 1);
      }
      if v.Some? {
        NamePlain(n - 1);
        EntryParses(name, v.value);
        assert Entries(l, n) == before + [name + "=" + Decimal(v.value)];
        assert Entries(l, n)[..|before|] == before;
      } else {
        assert Entries(l, n) == before;
      }
    }
  }

  /** Every choice of limits survives encoding and decoding. */
  lemma DecodeUndoesEncode(l: ResourceLimits)
    ensures FromEnv(Parsed(Split(Encoded(l), ','))) == l
  {
    hide Name, Value, Entries, FromEnv;
    EntriesPlain(l, 15);
    SplitJoin(Entries(l, 15), ',');
    var env := Parsed(Entries(l, 15));
    if Entries(l, 15) == [] {
      assert Parsed([""]) == map[] == env;
    }
    EntriesParse(l, 15);
    forall k: nat | k < 15
      ensures Value(FromEnv(env), k) == Value(l, k)
    {
      DecodedValue(env, k);
    }
    SameValues(FromEnv(env), l);
  }

  method DecodeLimits(s: string) returns (l: ResourceLimits)
    ensures l == FromEnv(Parsed(Split(s, ',')))
    ensures forall encoded: ResourceLimits | s == Encoded(encoded) :: l == encoded
  {
    hide FromEnv, Parsed, Split, Encoded;
    var env := Decode(s);
    l := FromEnv(env);
    forall encoded: ResourceLimits | s == Encoded(encoded)
      ensures l == encoded
    {
      DecodeUndoesEncode(encoded);
    }
  }

  // ----- system limits

  /** The system's number of the k-th limit. */
  function SystemId(k: nat): (id: nat)
  {
    match k
    case 0 => 9
    case 1 => 4
    case 2 => 0
    case 3 => 2
    case 4 => 1
    case 5 => 10
    case 6 => 8
    case 7 => 12
    case 8 => 13
    case 9 => 7
    case 10 => 6
    case 11 => 5
    case 12 => 14
    case 13 => 11
    case _ => 3
  }

  /** The limits set so far: one entry per limit set whose number is below n. */
  predicate FlagsBelow(m: map<int, uint64>, l: ResourceLimits, n: nat)
  {
    && (forall k: nat | k < 15 && SystemId(k) < n ::
          Value(l, k) == if SystemId(k) in m then Some(m[SystemId(k)]) else None)
    && (forall id | id in m :: exists k: nat :: k < 15 && id == SystemId(k) && SystemId(k) < n)
  }

  lemma SystemIdInjective(i: nat, j: nat)
    requires i < 15 && j < 15 && SystemId(i) == SystemId(j)
    ensures i == j
  {
  }

  lemma SystemIdBound(k: nat)
    ensures SystemId(k) < 15
  {
  }

  lemma NoFlags(l: ResourceLimits)
    ensures FlagsBelow(map[], l, 0)
  {
  }

  lemma NextFlag(m: map<int, uint64>, l: ResourceLimits, k: nat, n: nat, v: Limit)
    requires k < 15 && SystemId(k) == n && Value(l, k) == v && FlagsBelow(m, l, n)
    ensures FlagsBelow(if v.Some? then m[n := v.value] else m, l, n + 1)
  {
    hide Value, SystemId;
    forall j: nat | j < 15 && SystemId(j) < n + 1
      ensures j == k || SystemId(j) < n
    {
      if SystemId(j) == n {
        SystemIdInjective(j, k);
      }
    }
  }

  method GetSystemRlimitFlags(l: ResourceLimits) returns (m: map<int, uint64>)
    ensures forall k: nat | k < 15 :: Value(l, k) == if SystemId(k) in m then Some(m[SystemId(k)]) else None
    ensures forall id | id in m :: exists k: nat :: k < 15 && id == SystemId(k)
    ensures NumbersOf(m, l) && forall id | id in m :: 0 <= id < 15
  {
    hide FlagsBelow, NumbersOf;
    m := map[];
    NoFlags(l);
    NextFlag(m, l, 2, 0, l.cpu);
    if l.cpu.Some? {
      m := m[0 := l.cpu.value];
    }
    NextFlag(m, l, 4, 1, l.fsize);
    if l.fsize.Some? {
      m := m[1 := l.fsize.value];
    }
    NextFlag(m, l, 3, 2, l.data);
    if l.data.Some? {
      m := m[2 := l.data.value];
    }
    NextFlag(m, l, 14, 3, l.stack);
    if l.stack.Some? {
      m := m[3 := l.stack.value];
    }
    NextFlag(m, l, 1, 4, l.core);
    if l.core.Some? {
      m := m[4 := l.core.value];
    }
    NextFlag(m, l, 11, 5, l.rss);
    if l.rss.Some? {
      m := m[5 := l.rss.value];
    }
    NextFlag(m, l, 10, 6, l.nproc);
    if l.nproc.Some? {
      m := m[6 := l.nproc.value];
    }
    NextFlag(m, l, 9, 7, l.nofile);
    if l.nofile.Some? {
      m := m[7 := l.nofile.value];
    }
    NextFlag(m, l, 6, 8, l.memlock);
    if l.memlock.Some? {
      m := m[8 := l.memlock.value];
    }
    NextFlag(m, l, 0, 9, l.addressSpace);
    if l.addressSpace.Some? {
      m := m[9 := l.addressSpace.value];
    }
    NextFlag(m, l, 5, 10, l.locks);
    if l.locks.Some? {
      m := m[10 := l.locks.value];
    }
    NextFlag(m, l, 13, 11, l.sigpending);
    if l.sigpending.Some? {
      m := m[11 := l.sigpending.value];
    }
    NextFlag(m, l, 7, 12, l.msgqueue);
    if l.msgqueue.Some? {
      m := m[12 := l.msgqueue.value];
    }
    NextFlag(m, l, 8, 13, l.nice);
    if l.nice.Some? {
      m := m[13 := l.nice.value];
    }
    NextFlag(m, l, 12, 14, l.rtprio);
    if l.rtprio.Some? {
      m := m[14 := l.rtprio.value];
    }
    AllFlags(m, l);
    Numbered(m, l);
  }

  function Flag(m: map<int, uint64>, id: int): (v: Limit)
  {
    if id in m then Some(m[id]) else None
  }

  /** The numbers of the kernel's interface. */
  predicate NumbersOf(m: map<int, uint64>, l: ResourceLimits)
  {
    && Flag(m, 0) == l.cpu && Flag(m, 1) == l.fsize && Flag(m, 2) == l.data && Flag(m, 3) == l.stack
    && Flag(m, 4) == l.core && Flag(m, 5) == l.rss && Flag(m, 6) == l.nproc && Flag(m, 7) == l.nofile
    && Flag(m, 8) == l.memlock && Flag(m, 9) == l.addressSpace && Flag(m, 10) == l.locks
    && Flag(m, 11) == l.sigpending && Flag(m, 12) == l.msgqueue && Flag(m, 13) == l.nice && Flag(m, 14) == l.rtprio
  }

  lemma Numbered(m: map<int, uint64>, l: ResourceLimits)
    requires forall k: nat | k < 15 :: Value(l, k) == if SystemId(k) in m then Some(m[SystemId(k)]) else None
    requires forall id | id in m :: exists k: nat :: k < 15 && id == SystemId(k)
    ensures NumbersOf(m, l) && forall id | id in m :: 0 <= id < 15
  {
    assert SystemId(0) == 9 && SystemId(1) == 4 && SystemId(2) == 0 && SystemId(3) == 2 && SystemId(4) == 1;
    assert SystemId(5) == 10 && SystemId(6) == 8 && SystemId(7) == 12 && SystemId(8) == 13 && SystemId(9) == 7;
    assert SystemId(10) == 6 && SystemId(11) == 5 && SystemId(12) == 14 && SystemId(13) == 11 && SystemId(14) == 3;
    assert Value(l, 0) == l.addressSpace && Value(l, 1) == l.core && Value(l, 2) == l.cpu && Value(l, 3) == l.data;
    assert Value(l, 4) == l.fsize && Value(l, 5) == l.locks && Value(l, 6) == l.memlock && Value(l, 7) == l.msgqueue;
    assert Value(l, 8) == l.nice && Value(l, 9) == l.nofile && Value(l, 10) == l.nproc && Value(l, 11) == l.rss;
    assert Value(l, 12) == l.rtprio && Value(l, 13) == l.sigpending && Value(l, 14) == l.stack;
    hide SystemId, Value;
  }

  lemma AllFlags(m: map<int, uint64>, l: ResourceLimits)
    requires FlagsBelow(m, l, 15)
    ensures forall k: nat | k < 15 :: Value(l, k) == if SystemId(k) in m then Some(m[SystemId(k)]) else None
    ensures forall id | id in m :: exists k: nat :: k < 15 && id == SystemId(k)
  {
    hide Value, SystemId;
    forall k: nat | k < 15
      ensures SystemId(k) < 15
    {
      SystemIdBound(k);
    }
  }

  function LimitsSet(l: ResourceLimits): (r: set<nat>)
  {
    set k: nat | k < 15 && Value(l, k).Some?
  }

  /** Flags that agree with the limits have exactly as many entries as there are limits set. */
  lemma FlagCount(m: map<int, uint64>, l: ResourceLimits)
    requires forall k: nat | k < 15 :: Value(l, k) == if SystemId(k) in m then Some(m[SystemId(k)]) else None
    requires forall id | id in m :: exists k: nat :: k < 15 && id == SystemId(k)
    ensures |m| == |LimitsSet(l)|
  {
    hide Value, SystemId;
    SameCount(m.Keys, LimitsSet(l));
  }

  lemma {:induction false} SameCount(ids: set<int>, chosen: set<nat>)
    requires forall k | k in chosen :: k < 15 && SystemId(k) in ids
    requires forall id | id in ids :: exists k: nat :: k in chosen && id == SystemId(k)
    ensures |ids| == |chosen|
    decreases chosen
  {
    hide SystemId;
    if chosen == {} {
      assert forall id | id in ids :: id !in ids;
    } else {
      var k :| k in chosen;
      var rest := chosen - {k};
      forall j | j in rest
        ensures SystemId(j) in ids - {SystemId(k)}
      {
        if SystemId(j) == SystemId(k) {
          SystemIdInjective(j, k);
        }
      }
      SameCount(ids - {SystemId(k)}, rest);
    }
  }
}
