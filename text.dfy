/**
  The handful of Foundation / Swift standard-library string operations the
  resolution code relies on, written out over `seq<char>`:
  `split(separator:)` (which drops empty pieces), `joined(separator:)`,
  `contains`, `hasPrefix`, `hasSuffix`, `replacingOccurrences(of:with:)` for a
  single character, ASCII `uppercased()`, `UInt(String)` and `String(UInt)`.
*/
module Text {
  import opened Wrappers

  /** `UInt.max` on the 64-bit platforms the tool runs on. */
  const UIntMax: nat := 0xFFFF_FFFF_FFFF_FFFF

  /** Index of the first `c` in `s`, or `|s|` when there is none. */
  function IndexOf(s: string, c: char): (k: nat)
    ensures k <= |s|
    ensures k < |s| ==> s[k] == c
    ensures forall i :: 0 <= i < k ==> s[i] != c
    ensures k == |s| <==> c !in s
  {
    if s == [] then 0
    else if s[0] == c then 0
    else 1 + IndexOf(s[1..], c)
  }

  /** Swift's `split(separator:)`: the maximal non-empty runs between separators. */
  function Split(s: string, sep: char): (parts: seq<string>)
    ensures forall p :: p in parts ==> p != [] && sep !in p
    decreases |s|
  {
    if s == [] then []
    else if s[0] == sep then Split(s[1..], sep)
    else
      var k := IndexOf(s, sep);
      [s[..k]] + Split(s[k..], sep)
  }

  /** `joined(separator:)`. */
  function Join(parts: seq<string>, sep: string): string {
    if parts == [] then ""
    else if |parts| == 1 then parts[0]
    else parts[0] + sep + Join(parts[1..], sep)
  }

  /** The lines of a text: every piece between two line feeds, empty ones included. */
  function Lines(s: string): (lines: seq<string>)
    ensures lines != []
  {
    if s == [] then [[]]
    else
      var rest := Lines(s[1..]);
      if s[0] == '\n' then [[]] + rest else [[s[0]] + rest[0]] + rest[1..]
  }

  predicate HasPrefix(s: string, prefix: string) {
    |prefix| <= |s| && s[..|prefix|] == prefix
  }

  predicate HasSuffix(s: string, suffix: string) {
    |suffix| <= |s| && s[|s| - |suffix|..] == suffix
  }

  /** `s.contains(sub)` for a substring. */
  predicate Contains(s: string, sub: string)
    decreases |s|
  {
    HasPrefix(s, sub) || (s != [] && Contains(s[1..], sub))
  }

  /** `replacingOccurrences(of: String(c), with: "")`. */
  function RemoveChar(s: string, c: char): (r: string)
    ensures c !in r
    ensures |r| <= |s|
    ensures forall x :: x in r ==> x in s
  {
    if s == [] then []
    else if s[0] == c then RemoveChar(s[1..], c)
    else [s[0]] + RemoveChar(s[1..], c)
  }

  /** `replacingOccurrences(of: String(from), with: String(to))`. */
  function ReplaceChar(s: string, from: char, to: char): (r: string)
    ensures |r| == |s|
    ensures forall i :: 0 <= i < |s| ==> r[i] == if s[i] == from then to else s[i]
  {
    if s == [] then []
    else [if s[0] == from then to else s[0]] + ReplaceChar(s[1..], from, to)
  }

  function UpperChar(c: char): char {
    if 'a' <= c <= 'z' then (c as int - 32) as char else c
  }

  /** `uppercased()`, for the ASCII letters the server-property names use. */
  function Uppercased(s: string): (r: string)
    ensures |r| == |s|
    ensures forall i :: 0 <= i < |s| ==> r[i] == UpperChar(s[i])
  {
    if s == [] then [] else [UpperChar(s[0])] + Uppercased(s[1..])
  }

  predicate IsDigit(c: char) {
    '0' <= c <= '9'
  }

  predicate AllDigits(s: string) {
    forall i :: 0 <= i < |s| ==> IsDigit(s[i])
  }

  function DigitsValue(s: string): nat
    requires AllDigits(s)
  {
    if s == [] then 0
    else DigitsValue(s[..|s| - 1]) * 10 + (s[|s| - 1] as int - '0' as int)
  }

  /**
    `UInt(text)`: an optional sign, then a non-empty run of decimal digits
    whose value fits in a `UInt`; a `-` sign is accepted only on a zero.
  */
  function ParseUInt(s: string): (r: Option<nat>)
    ensures r.Some? ==> r.value <= UIntMax
    ensures s != [] && AllDigits(s) ==> r == if DigitsValue(s) <= UIntMax then Some(DigitsValue(s)) else None
    ensures s != [] && s[0] == '+' && AllDigits(s[1..]) ==> r == ParseUInt(s[1..])
    ensures s != [] && s[0] == '-' && r.Some? ==> r.value == 0
  {
    if s == [] then None
    else if AllDigits(s) then (if DigitsValue(s) <= UIntMax then Some(DigitsValue(s)) else None)
    else
      var sign, digits := s[0], s[1..];
      if digits == [] || !AllDigits(digits) then None
      else if sign == '+' && DigitsValue(digits) <= UIntMax then Some(DigitsValue(digits))
      else if sign == '-' && DigitsValue(digits) == 0 then Some(0)
      else None
  }

  function DigitChar(d: nat): char
    requires d < 10
  {
    ('0' as int + d) as char
  }

  /** `String(n)` for an unsigned integer. */
  function NatToString(n: nat): (s: string)
    ensures s != [] && AllDigits(s)
  {
    if n < 10 then [DigitChar(n)] else NatToString(n / 10) + [DigitChar(n % 10)]
  }

  /** `compactMap { UInt($0) }`: the pieces that parse, in order; the others are dropped. */
  function CompactMapUInt(parts: seq<string>): (values: seq<nat>)
    ensures |values| <= |parts|
    ensures forall v :: v in values ==> v <= UIntMax
  {
    if parts == [] then []
    else
      match ParseUInt(parts[0])
      case Some(v) => [v] + CompactMapUInt(parts[1..])
      case None => CompactMapUInt(parts[1..])
  }

  // ---------------------------------------------------------------------------
  // Facts about the operations above

  /** Two numbers printed as `a.b`. */
  function Dotted(a: nat, b: nat): string {
    NatToString(a) + "." + NatToString(b)
  }

  lemma {:induction false} SplitDotted(a: nat, b: nat)
    ensures Split(Dotted(a, b), '.') == [NatToString(a), NatToString(b)]
  {
    DigitsHaveNoSeparator(NatToString(a), '.');
    DigitsHaveNoSeparator(NatToString(b), '.');
    SplitAround(NatToString(a), NatToString(b), '.');
    SplitSingle(NatToString(a), '.');
    SplitSingle(NatToString(b), '.');
  }

  /** `a.b.x` splits into its three printed numbers. */
  lemma {:induction false} SplitDottedPatch(a: nat, b: nat, x: nat)
    ensures Split(Dotted(a, b) + "." + NatToString(x), '.') == [NatToString(a), NatToString(b), NatToString(x)]
  {
    SplitDotted(a, b);
    DigitsHaveNoSeparator(NatToString(x), '.');
    SplitSingle(NatToString(x), '.');
    SplitAround(Dotted(a, b), NatToString(x), '.');
  }

  lemma CompactMapCons(p: string, rest: seq<string>)
    ensures CompactMapUInt([p] + rest) ==
      (if ParseUInt(p).Some? then [ParseUInt(p).value] else []) + CompactMapUInt(rest)
  {
    assert ([p] + rest)[1..] == rest;
  }

  /** Printed numbers that fit in a `UInt` parse back, in order. */
  lemma CompactMapPrinted3(a: nat, b: nat, x: nat)
    requires a <= UIntMax && b <= UIntMax && x <= UIntMax
    ensures CompactMapUInt([NatToString(a), NatToString(b)]) == [a, b]
    ensures CompactMapUInt([NatToString(a), NatToString(b), NatToString(x)]) == [a, b, x]
  {
    ParseNatToString(a);
    ParseNatToString(b);
    ParseNatToString(x);
    CompactMapCons(NatToString(b), []);
    CompactMapCons(NatToString(x), []);
    CompactMapCons(NatToString(b), [NatToString(x)]);
    CompactMapCons(NatToString(a), [NatToString(b)]);
    CompactMapCons(NatToString(a), [NatToString(b), NatToString(x)]);
  }

  lemma DigitsHaveNoSeparator(s: string, c: char)
    requires AllDigits(s) && !IsDigit(c)
    ensures c !in s
  {
  }

  /** A printed version never spells a word such as `latest` or `all`. */
  lemma DottedIsNotWord(a: nat, b: nat, w: string)
    requires w != [] && !IsDigit(w[0])
    ensures Dotted(a, b) != w
  {
    assert Dotted(a, b)[0] == NatToString(a)[0];
  }

  lemma {:induction false} DigitsValueOfNatToString(n: nat)
    ensures DigitsValue(NatToString(n)) == n
  {
    if n >= 10 {
      var s := NatToString(n / 10);
      DigitsValueOfNatToString(n / 10);
      assert (s + [DigitChar(n % 10)])[..|s|] == s;
    }
  }

  /** `UInt(String(n)) == n` for every value a `UInt` can hold, and fails beyond. */
  lemma ParseNatToString(n: nat)
    ensures ParseUInt(NatToString(n)) == if n <= UIntMax then Some(n) else None
  {
    DigitsValueOfNatToString(n);
  }

  lemma {:induction false} IndexOfAround(a: string, b: string, sep: char)
    ensures IndexOf(a + [sep] + b, sep) == IndexOf(a, sep)
  {
    if a != [] && a[0] != sep {
      assert (a + [sep] + b)[1..] == a[1..] + [sep] + b;
      IndexOfAround(a[1..], b, sep);
    }
  }

  /** A string without the separator is a single piece. */
  lemma {:induction false} SplitSingle(s: string, sep: char)
    requires s != [] && sep !in s
    ensures Split(s, sep) == [s]
  {
    assert s[0] != sep;
    assert IndexOf(s, sep) == |s|;
    assert s[..|s|] == s;
    assert s[|s|..] == [];
  }

  /** Splitting distributes over a separator: empty pieces never appear. */
  lemma {:induction false} SplitAround(a: string, b: string, sep: char)
    ensures Split(a + [sep] + b, sep) == Split(a, sep) + Split(b, sep)
    decreases |a|
  {
    var s := a + [sep] + b;
    if a == [] {
      assert s[0] == sep && s[1..] == b;
    } else if a[0] == sep {
      assert s[1..] == a[1..] + [sep] + b;
      SplitAround(a[1..], b, sep);
    } else {
      var k := IndexOf(a, sep);
      IndexOfAround(a, b, sep);
      assert IndexOf(s, sep) == k;
      assert s[..k] == a[..k];
      assert s[k..] == a[k..] + [sep] + b;
      SplitAround(a[k..], b, sep);
    }
  }

  /** Joining two non-empty lists puts exactly one separator between them. */
  lemma {:induction false} JoinAppend(xs: seq<string>, ys: seq<string>, sep: string)
    requires xs != [] && ys != []
    ensures Join(xs + ys, sep) == Join(xs, sep) + sep + Join(ys, sep)
    decreases |xs|
  {
    if |xs| == 1 {
      assert (xs + ys)[1..] == ys;
    } else {
      assert (xs + ys)[1..] == xs[1..] + ys;
      JoinAppend(xs[1..], ys, sep);
    }
  }

  lemma {:induction false} IndexOfPrefix(a: string, b: string, c: char)
    requires c !in a
    ensures IndexOf(a + b, c) == |a| + IndexOf(b, c)
    decreases |a|
  {
    if a != [] {
      assert a[0] != c && c !in a[1..];
      assert (a + b)[0] == a[0];
      assert (a + b)[1..] == a[1..] + b;
      IndexOfPrefix(a[1..], b, c);
    } else {
      assert a + b == b;
    }
  }

  /** The line split distributes over a line feed. */
  lemma {:induction false} LinesAround(a: string, b: string)
    ensures Lines(a + "\n" + b) == Lines(a) + Lines(b)
  {
    if a == [] {
      assert a + "\n" + b == "\n" + b;
      assert ("\n" + b)[1..] == b;
    } else {
      assert (a + "\n" + b)[1..] == a[1..] + "\n" + b;
      LinesAround(a[1..], b);
    }
  }

  lemma {:induction false} LinesSingle(s: string)
    requires '\n' !in s
    ensures Lines(s) == [s]
  {
    if s != [] {
      assert s[0] != '\n' && '\n' !in s[1..];
      LinesSingle(s[1..]);
      assert s == [s[0]] + s[1..];
    }
  }

  /** Joining lines without line feeds and splitting the result again gives them back. */
  lemma {:induction false} LinesOfJoin(xs: seq<string>)
    requires xs != []
    requires forall i :: 0 <= i < |xs| ==> '\n' !in xs[i]
    ensures Lines(Join(xs, "\n")) == xs
    decreases |xs|
  {
    if |xs| == 1 {
      LinesSingle(xs[0]);
    } else {
      LinesAround(xs[0], Join(xs[1..], "\n"));
      LinesSingle(xs[0]);
      LinesOfJoin(xs[1..]);
    }
  }

  /** As `LinesOfJoin`, when the last piece may itself span several lines. */
  lemma LinesOfJoinLast(xs: seq<string>, last: string)
    requires xs != []
    requires forall i :: 0 <= i < |xs| ==> '\n' !in xs[i]
    ensures Lines(Join(xs + [last], "\n")) == xs + Lines(last)
  {
    JoinAppend(xs, [last], "\n");
    LinesAround(Join(xs, "\n"), last);
    LinesOfJoin(xs);
  }

  lemma {:induction false} ContainsAt(s: string, sub: string, i: nat)
    requires i + |sub| <= |s| && s[i..i + |sub|] == sub
    ensures Contains(s, sub)
    decreases i
  {
    if i > 0 {
      assert s[1..][i - 1..i - 1 + |sub|] == sub;
      ContainsAt(s[1..], sub, i - 1);
    }
  }

  /** A string contains whatever is glued into it. */
  lemma ContainsMiddle(a: string, sub: string, b: string)
    ensures Contains(a + sub + b, sub)
  {
    assert (a + sub + b)[|a|..|a| + |sub|] == sub;
    ContainsAt(a + sub + b, sub, |a|);
  }

  /** A string that does not even contain the first character of `sub` cannot contain `sub`. */
  lemma {:induction false} NotContainsFirstChar(s: string, sub: string)
    requires sub != [] && sub[0] !in s
    ensures !Contains(s, sub)
    decreases |s|
  {
    if s != [] {
      assert s[1..] <= s[1..];
      assert forall x :: x in s[1..] ==> x in s;
      NotContainsFirstChar(s[1..], sub);
    }
  }

  /** The lines of a joined text end with the lines of its last piece. */
  lemma LinesOfJoinSnoc(xs: seq<string>, last: string)
    requires xs != []
    ensures Lines(Join(xs + [last], "\n")) == Lines(Join(xs, "\n")) + Lines(last)
  {
    JoinAppend(xs, [last], "\n");
    LinesAround(Join(xs, "\n"), last);
  }

  /** A piece without a line feed is one of the lines of the joined text. */
  lemma {:induction false} JoinedLineMember(xs: seq<string>, k: nat)
    requires k < |xs| && '\n' !in xs[k]
    ensures xs[k] in Lines(Join(xs, "\n"))
    decreases |xs|
  {
    if |xs| == 1 {
      LinesSingle(xs[0]);
    } else {
      LinesAround(xs[0], Join(xs[1..], "\n"));
      if k == 0 {
        LinesSingle(xs[0]);
      } else {
        JoinedLineMember(xs[1..], k - 1);
      }
    }
  }

  /** A last piece without a line feed is the last line of the joined text. */
  lemma {:induction false} JoinedLastLine(xs: seq<string>)
    requires xs != [] && '\n' !in xs[|xs| - 1]
    ensures
      var lines := Lines(Join(xs, "\n"));
      lines[|lines| - 1] == xs[|xs| - 1]
    decreases |xs|
  {
    if |xs| == 1 {
      LinesSingle(xs[0]);
    } else {
      LinesAround(xs[0], Join(xs[1..], "\n"));
      JoinedLastLine(xs[1..]);
    }
  }
}
