/**
  The counter keys `rl:{dimension}:{value}:{backend}:{window_seconds}`: which counters they keep
  apart, and exactly when they do.
 */
module KeyFormat {

  datatype Dimension = Ip | Net24 | Net6 | Asn | Country | User

  function DimensionName(d: Dimension): string {
    match d
    case Ip => "ip"
    case Net24 => "net24"
    case Net6 => "net6"
    case Asn => "asn"
    case Country => "country"
    case User => "user"
  }

  function Digit(n: nat): char
    requires n < 10
  {
    "0123456789"[n]
  }

  /** Decimal notation, as an f-string prints it. */
  function Decimal(n: nat): (s: string)
    ensures s != []
  {
    if n < 10 then [Digit(n)] else Decimal(n / 10) + [Digit(n % 10)]
  }

  /** What one counter is meant to count. */
  datatype Counted = Counted(dimension: Dimension, value: string, backend: string, window: nat)

  function Key(c: Counted): string {
    "rl:" + DimensionName(c.dimension) + ":" + c.value + ":" + c.backend + ":" + Decimal(c.window)
  }

  /** The keys of the six dimensions, spelled out. */
  lemma KeySpelledOut(c: Counted)
    ensures var rest := c.value + ":" + c.backend + ":" + Decimal(c.window);
            Key(c) == match c.dimension
                      case Ip => "rl:ip:" + rest
                      case Net24 => "rl:net24:" + rest
                      case Net6 => "rl:net6:" + rest
                      case Asn => "rl:asn:" + rest
                      case Country => "rl:country:" + rest
                      case User => "rl:user:" + rest
  {
  }

  /** The number a string of digits stands for. */
  ghost function NumberOf(digits: string): int {
    if digits == [] then 0
    else NumberOf(digits[..|digits| - 1]) * 10 + (digits[|digits| - 1] as int - '0' as int)
  }

  lemma {:induction false} DecimalReadsBack(n: nat)
    ensures NumberOf(Decimal(n)) == n
  {
    if n < 10 {
      assert Decimal(n)[..0] == [];
    } else {
      DecimalReadsBack(n / 10);
      assert Decimal(n)[..|Decimal(n)| - 1] == Decimal(n / 10);
    }
  }

  // ---------------------------------------------------------------- reading a key back

  ghost predicate NoColon(s: string) { ':' !in s }

  lemma {:induction false} DecimalNoColon(n: nat)
    ensures NoColon(Decimal(n))
  {
    if n >= 10 { DecimalNoColon(n / 10); }
  }

  lemma DigitInjective(m: nat, n: nat)
    requires m < 10 && n < 10 && Digit(m) == Digit(n)
    ensures m == n
  {
  }

  lemma {:induction false} DecimalInjective(m: nat, n: nat)
    requires Decimal(m) == Decimal(n)
    ensures m == n
  {
    var s, t := Decimal(m), Decimal(n);
    assert s[|s| - 1] == Digit(m % 10) && t[|t| - 1] == Digit(n % 10);
    DigitInjective(m % 10, n % 10);
    if m >= 10 && n >= 10 {
      assert s[..|s| - 1] == Decimal(m / 10) && t[..|t| - 1] == Decimal(n / 10);
      DecimalInjective(m / 10, n / 10);
    } else {
      assert m < 10 ==> |s| == 1;
      assert n < 10 ==> |t| == 1;
      assert m >= 10 ==> |s| >= 2;
      assert n >= 10 ==> |t| >= 2;
    }
  }

  /** The part before the first colon is determined. */
  lemma SplitFirst(a: string, x: string, b: string, y: string)
    requires NoColon(a) && NoColon(b) && a + ":" + x == b + ":" + y
    ensures a == b && x == y
  {
    var s := a + ":" + x;
    assert s == b + ":" + y;
    assert s[|a|] == ':' && s[|b|] == ':';
    assert forall i :: 0 <= i < |a| ==> s[i] == a[i] && a[i] in a;
    assert forall i :: 0 <= i < |b| ==> s[i] == b[i] && b[i] in b;
    assert |a| == |b|;
    assert a == s[..|a|] && b == s[..|b|];
    assert x == s[|a| + 1..] && y == s[|b| + 1..];
  }

  lemma LastColon(s: string, x: string, a: string)
    requires NoColon(a) && s == x + ":" + a
    ensures s[|x|] == ':' && forall k :: |x| < k < |s| ==> s[k] != ':'
  {
    assert forall k :: |x| < k < |s| ==> s[k] == a[k - |x| - 1];
  }

  /** The part after the last colon is determined. */
  lemma SplitLast(x: string, a: string, y: string, b: string)
    requires NoColon(a) && NoColon(b) && x + ":" + a == y + ":" + b
    ensures a == b && x == y
  {
    var s := x + ":" + a;
    LastColon(s, x, a);
    LastColon(s, y, b);
    assert |x| == |y|;
    assert x == s[..|x|] && y == s[..|y|];
    assert a == s[|x| + 1..] && b == s[|y| + 1..];
  }

  // ---------------------------------------------------------------- collisions

  /** `long` ends with a colon followed by `short`. */
  ghost predicate ColonSuffix(long: string, short: string) {
    |long| > |short| && long[|long| - |short| - 1..] == ":" + short
  }

  lemma SameLengthBackends(v: string, b: string, v': string, b': string)
    requires v + ":" + b == v' + ":" + b' && |b| == |b'|
    ensures v == v' && b == b'
  {
    var s := v + ":" + b;
    assert |v| == |v'|;
    assert v == s[..|v|] && v' == s[..|v'|];
    assert b == s[|v| + 1..] && b' == s[|v'| + 1..];
  }

  lemma LongerBackend(v: string, b: string, v': string, b': string)
    requires v + ":" + b == v' + ":" + b' && |b| > |b'|
    ensures ColonSuffix(b, b')
  {
    var s := v + ":" + b;
    assert b == s[|v| + 1..];
    assert s[|v'|..] == ":" + b';
    assert b[|b| - |b'| - 1..] == s[|v'|..];
  }

  lemma DimensionNames(d: Dimension, d': Dimension)
    ensures NoColon(DimensionName(d))
    ensures DimensionName(d) == DimensionName(d') ==> d == d'
  {
    var name, name' := DimensionName(d), DimensionName(d');
    if name == name' {
      assert |name| == |name'| && name[0] == name'[0];
    }
  }

  /** Equal keys agree on the dimension, the window, and the value and backend taken together. */
  lemma KeyParts(c: Counted, c': Counted)
    requires Key(c) == Key(c')
    ensures c.dimension == c'.dimension && c.window == c'.window
    ensures c.value + ":" + c.backend == c'.value + ":" + c'.backend
  {
    var d, d' := DimensionName(c.dimension), DimensionName(c'.dimension);
    var m, m' := c.value + ":" + c.backend, c'.value + ":" + c'.backend;
    var w, w' := Decimal(c.window), Decimal(c'.window);
    KeyShape(c);
    KeyShape(c');
    assert d + ":" + (m + ":" + w) == Key(c)[3..] == Key(c')[3..] == d' + ":" + (m' + ":" + w');
    DimensionNames(c.dimension, c'.dimension);
    DimensionNames(c'.dimension, c.dimension);
    SplitFirst(d, m + ":" + w, d', m' + ":" + w');
    DecimalNoColon(c.window);
    DecimalNoColon(c'.window);
    SplitLast(m, w, m', w');
    DecimalInjective(c.window, c'.window);
  }

  lemma KeyShape(c: Counted)
    ensures Key(c) == "rl:" + (DimensionName(c.dimension) + ":" + (c.value + ":" + c.backend + ":" + Decimal(c.window)))
    ensures Key(c)[3..] == DimensionName(c.dimension) + ":" + (c.value + ":" + c.backend + ":" + Decimal(c.window))
  {
  }

  /** No two things to count share a counter, whatever the values. */
  ghost predicate CollisionFree(backends: set<string>) {
    forall c: Counted, c': Counted :: c.backend in backends && c'.backend in backends && Key(c) == Key(c') ==> c == c'
  }

  /** Keys keep all counters of a set of backends apart if and only if no backend name ends with a
      colon and another backend's name. */
  lemma KeysApartIff(backends: set<string>)
    ensures CollisionFree(backends)
            <==> forall b, b' :: b in backends && b' in backends ==> !ColonSuffix(b, b')
  {
    if forall b, b' :: b in backends && b' in backends ==> !ColonSuffix(b, b') {
      forall c: Counted, c': Counted | c.backend in backends && c'.backend in backends && Key(c) == Key(c')
        ensures c == c'
      {
        KeyParts(c, c');
        if |c.backend| > |c'.backend| {
          LongerBackend(c.value, c.backend, c'.value, c'.backend);
          assert false;
        } else if |c.backend| < |c'.backend| {
          LongerBackend(c'.value, c'.backend, c.value, c.backend);
          assert false;
        } else {
          SameLengthBackends(c.value, c.backend, c'.value, c'.backend);
        }
      }
    } else {
      var b, b' :| b in backends && b' in backends && ColonSuffix(b, b');
      var c, c' := Collision(b, b', 1);
    }
  }

  /** The users `u` of the longer-named backend and `u:…` of the other share the counter of any window the
      two backends have in common. */
  lemma Collision(b: string, b': string, window: nat) returns (c: Counted, c': Counted)
    requires ColonSuffix(b, b')
    ensures c.backend == b && c'.backend == b' && c.dimension == c'.dimension == User
    ensures c.window == c'.window == window && c.value != [] && c'.value != [] && c != c' && Key(c) == Key(c')
  {
    var prefix := b[..|b| - |b'| - 1];
    c := Counted(User, "u", b, window);
    c' := Counted(User, "u:" + prefix, b', window);
    assert b == prefix + ":" + b';
    assert c.value + ":" + c.backend == c'.value + ":" + c'.backend;
    KeyShape(c);
    KeyShape(c');
  }

  /** In particular, names without colons are always safe, although values may contain any. */
  lemma PlainNamesNeverCollide(backends: set<string>)
    requires forall b :: b in backends ==> NoColon(b)
    ensures CollisionFree(backends)
  {
    forall b, b' | b in backends && b' in backends ensures !ColonSuffix(b, b') {
      ColonSuffixHasColon(b, b');
    }
    KeysApartIff(backends);
  }

  lemma ColonSuffixHasColon(long: string, short: string)
    ensures ColonSuffix(long, short) ==> !NoColon(long)
  {
    if ColonSuffix(long, short) {
      assert long[|long| - |short| - 1..][0] == ':';
    }
  }
}
