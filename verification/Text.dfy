/** Text as the runtime splits, strips and joins it. */
module Text {

  /** The characters Python's `str.strip` removes. */
  predicate IsSpace(c: char) {
    var n := c as int;
    9 <= n <= 13 || 28 <= n <= 32 || n == 0x85 || n == 0xA0 || n == 0x1680 ||
    0x2000 <= n <= 0x200A || n == 0x2028 || n == 0x2029 || n == 0x202F || n == 0x205F || n == 0x3000
  }

  function StripLeft(s: string): string {
    if s != "" && IsSpace(s[0]) then StripLeft(s[1..]) else s
  }

  function StripRight(s: string): string {
    if s != "" && IsSpace(s[|s| - 1]) then StripRight(s[..|s| - 1]) else s
  }

  function Strip(s: string): string {
    StripRight(StripLeft(s))
  }

  /** The number of characters before the first separator. */
  function Before(s: string, c: char): (n: nat)
    ensures n <= |s|
  {
    if s == "" || s[0] == c then 0 else 1 + Before(s[1..], c)
  }

  function Split(s: string, c: char): seq<string>
    decreases |s|
  {
    var n := Before(s, c);
    if n == |s| then [s] else [s[..n]] + Split(s[n + 1..], c)
  }

  function Join(parts: seq<string>, c: char): string {
    if parts == [] then "" else if |parts| == 1 then parts[0] else parts[0] + [c] + Join(parts[1..], c)
  }

  lemma {:induction false} BeforeFinds(a: string, c: char, b: string)
    requires c !in a
    ensures Before(a + [c] + b, c) == |a|
  {
    if a != "" {
      assert (a + [c] + b)[1..] == a[1..] + [c] + b;
      BeforeFinds(a[1..], c, b);
    }
  }

  lemma {:induction false} BeforeFindsNone(s: string, c: char)
    requires c !in s
    ensures Before(s, c) == |s|
  {
    if s != "" {
      BeforeFindsNone(s[1..], c);
    }
  }

  lemma {:induction false} SplitUndoesJoin(parts: seq<string>, c: char)
    requires parts != [] && forall p :: p in parts ==> c !in p
    ensures Split(Join(parts, c), c) == parts
  {
    if |parts| == 1 {
      assert parts[0] in parts;
      BeforeFindsNone(parts[0], c);
    } else {
      var rest := Join(parts[1..], c);
      BeforeFinds(parts[0], c, rest);
      var s := parts[0] + [c] + rest;
      assert s[..|parts[0]|] == parts[0] && s[|parts[0]| + 1..] == rest;
      SplitUndoesJoin(parts[1..], c);
    }
  }

  lemma StripLeavesTrimmed(s: string)
    requires s != "" ==> !IsSpace(s[0]) && !IsSpace(s[|s| - 1])
    ensures Strip(s) == s
  {
  }

  lemma {:induction false} BeforeIsFirst(s: string, c: char)
    ensures c !in s[..Before(s, c)]
    ensures Before(s, c) < |s| ==> s[Before(s, c)] == c
  {
    if s != "" && s[0] != c {
      BeforeIsFirst(s[1..], c);
      assert s[..Before(s, c)] == [s[0]] + s[1..][..Before(s[1..], c)];
    }
  }

  lemma {:induction false} SplitRemovesSeparator(s: string, c: char, p: string)
    requires p in Split(s, c)
    ensures c !in p
    decreases |s|
  {
    BeforeIsFirst(s, c);
    var n := Before(s, c);
    if n == |s| {
      assert s[..n] == s;
    } else if p != s[..n] {
      SplitRemovesSeparator(s[n + 1..], c, p);
    }
  }

  lemma {:induction false} StripTrims(s: string)
    ensures Strip(s) != "" ==> !IsSpace(Strip(s)[0])
    ensures forall c :: c in Strip(s) ==> c in s
  {
    StripLeftIsSuffix(s);
    StripRightIsPrefix(StripLeft(s));
  }

  lemma {:induction false} StripLeftIsSuffix(s: string)
    ensures |StripLeft(s)| <= |s| && StripLeft(s) == s[|s| - |StripLeft(s)|..]
    ensures StripLeft(s) != "" ==> !IsSpace(StripLeft(s)[0])
  {
    if s != "" && IsSpace(s[0]) {
      StripLeftIsSuffix(s[1..]);
    }
  }

  lemma {:induction false} StripRightIsPrefix(s: string)
    ensures StripRight(s) <= s
  {
    if s != "" && IsSpace(s[|s| - 1]) {
      StripRightIsPrefix(s[..|s| - 1]);
    }
  }

  /** Stripping takes away white space at both ends, all of it, and nothing else. */
  lemma StripExactly(s: string) returns (left: string, right: string)
    ensures s == left + Strip(s) + right
    ensures (forall c :: c in left ==> IsSpace(c)) && (forall c :: c in right ==> IsSpace(c))
    ensures Strip(s) != "" ==> !IsSpace(Strip(s)[0]) && !IsSpace(Strip(s)[|Strip(s)| - 1])
  {
    left := StripLeftExactly(s);
    right := StripRightExactly(StripLeft(s));
    StripTrims(s);
  }

  lemma {:induction false} StripLeftExactly(s: string) returns (left: string)
    ensures s == left + StripLeft(s) && forall c :: c in left ==> IsSpace(c)
  {
    left := "";
    if s != "" && IsSpace(s[0]) {
      var more := StripLeftExactly(s[1..]);
      left := [s[0]] + more;
    }
  }

  lemma {:induction false} StripRightExactly(s: string) returns (right: string)
    ensures s == StripRight(s) + right && forall c :: c in right ==> IsSpace(c)
    ensures StripRight(s) != "" ==> !IsSpace(StripRight(s)[|StripRight(s)| - 1])
  {
    right := "";
    if s != "" && IsSpace(s[|s| - 1]) {
      var more := StripRightExactly(s[..|s| - 1]);
      right := more + [s[|s| - 1]];
    }
  }
}
