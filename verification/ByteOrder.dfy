/** Database keys in byte order, and the fixed-width hexadecimal key of a block number. */
module ByteOrder {
  import opened Options

  /** Byte-lexicographic order, as a database cursor uses it. */
  predicate Less(s: string, t: string) {
    t != [] && (s == [] || s[0] < t[0] || (s[0] == t[0] && Less(s[1..], t[1..])))
  }

  lemma {:induction false} LessIrreflexive(s: string)
    ensures !Less(s, s)
  {
    if s != [] {
      LessIrreflexive(s[1..]);
    }
  }

  lemma {:induction false} LessTransitive(s: string, t: string, u: string)
    requires Less(s, t) && Less(t, u)
    ensures Less(s, u)
  {
    if s != [] && s[0] == t[0] == u[0] {
      LessTransitive(s[1..], t[1..], u[1..]);
    }
  }

  lemma {:induction false} LessTotal(s: string, t: string)
    ensures s == t || Less(s, t) || Less(t, s)
  {
    if s != [] && t != [] && s[0] == t[0] {
      LessTotal(s[1..], t[1..]);
      assert s == [s[0]] + s[1..] && t == [t[0]] + t[1..];
    }
  }

  /** The last key a cursor sees. */
  ghost predicate IsLast(keys: set<string>, key: string) {
    key in keys && forall k <- keys :: k == key || Less(k, key)
  }

  method Last(keys: set<string>) returns (last: Option<string>)
    ensures if keys == {} then last == None else last.Some? && IsLast(keys, last.value)
  {
    last := None;
    var todo := keys;
    while todo != {}
      invariant todo <= keys
      invariant if keys == todo then last == None else last.Some? && IsLast(keys - todo, last.value)
    {
      var k :| k in todo;
      if last.None? || Less(last.value, k) {
        if last.Some? {
          BelowNew(keys - todo, last.value, k);
        }
        last := Some(k);
      } else {
        LessTotal(last.value, k);
      }
      assert keys - (todo - {k}) == (keys - todo) + {k};
      todo := todo - {k};
    }
    assert keys - {} == keys;
  }

  lemma BelowNew(keys: set<string>, key: string, k: string)
    requires IsLast(keys, key) && Less(key, k)
    ensures IsLast(keys + {k}, k)
  {
    forall j | j in keys
      ensures Less(j, k)
    {
      if j != key {
        LessTransitive(j, key, k);
      }
    }
  }

  // Hexadecimal keys

  function HexDigit(d: nat): char
    requires d < 16
  {
    if d < 10 then ('0' as int + d) as char else ('a' as int + (d - 10)) as char
  }

  function Pow16(w: nat): nat {
    if w == 0 then 1 else 16 * Pow16(w - 1)
  }

  /** A number in lowercase hexadecimal without leading zeros. */
  function LowerHex(n: nat): string {
    if n < 16 then [HexDigit(n)] else LowerHex(n / 16) + [HexDigit(n % 16)]
  }

  function PadLeft(s: string, width: nat): string
    decreases width - |s|
  {
    if |s| >= width then s else PadLeft(['0'] + s, width)
  }

  /** The index key of a block number: `0x` and sixteen padded digits. */
  function NumKey(n: nat): string {
    "0x" + PadLeft(LowerHex(n), 16)
  }

  /** Exactly `w` digits, most significant first. */
  function Digits(n: nat, w: nat): string {
    if w == 0 then [] else Digits(n / 16, w - 1) + [HexDigit(n % 16)]
  }

  lemma {:induction false} DigitsLength(n: nat, w: nat)
    ensures |Digits(n, w)| == w
  {
    if w > 0 {
      DigitsLength(n / 16, w - 1);
    }
  }

  lemma {:induction false} PadInner(s: string, c: char, width: nat)
    ensures PadLeft(s + [c], width + 1) == PadLeft(s, width) + [c]
    decreases width - |s|
  {
    if |s| < width {
      assert ['0'] + (s + [c]) == (['0'] + s) + [c];
      PadInner(['0'] + s, c, width);
    }
  }

  /** Padding is the same as writing all digits, for numbers that fit. */
  lemma {:induction false} PaddedIsDigits(n: nat, w: nat)
    requires w > 0 && n < Pow16(w)
    ensures PadLeft(LowerHex(n), w) == Digits(n, w)
    decreases w
  {
    if w == 1 {
      assert Digits(n, 1) == [HexDigit(n)];
    } else if n < 16 {
      PaddedIsDigits(0, w - 1);
      PadInner(['0'], HexDigit(n), w - 1);
      assert PadLeft([HexDigit(n)], w) == PadLeft(['0'] + [HexDigit(n)], w);
    } else {
      PaddedIsDigits(n / 16, w - 1);
      PadInner(LowerHex(n / 16), HexDigit(n % 16), w - 1);
    }
  }

  lemma {:induction false} LessAppend(s: string, t: string, c: char, d: char)
    requires |s| == |t|
    ensures Less(s + [c], t + [d]) <==> Less(s, t) || (s == t && c < d)
  {
    if s != [] {
      assert (s + [c])[1..] == s[1..] + [c] && (t + [d])[1..] == t[1..] + [d];
      LessAppend(s[1..], t[1..], c, d);
      assert s == [s[0]] + s[1..] && t == [t[0]] + t[1..];
    }
  }

  lemma {:induction false} LessPrefixed(p: string, s: string, t: string)
    requires Less(s, t)
    ensures Less(p + s, p + t)
  {
    if p == [] {
      assert p + s == s && p + t == t;
    } else {
      assert (p + s)[1..] == p[1..] + s && (p + t)[1..] == p[1..] + t;
      LessPrefixed(p[1..], s, t);
    }
  }

  lemma {:induction false} DigitsOrder(n: nat, m: nat, w: nat)
    requires n < m < Pow16(w)
    ensures Less(Digits(n, w), Digits(m, w))
  {
    if w > 0 {
      DigitsLength(n / 16, w - 1);
      DigitsLength(m / 16, w - 1);
      LessAppend(Digits(n / 16, w - 1), Digits(m / 16, w - 1), HexDigit(n % 16), HexDigit(m % 16));
      if n / 16 < m / 16 {
        DigitsOrder(n / 16, m / 16, w - 1);
      }
    }
  }

  /** Block numbers are unsigned 64-bit integers. */
  newtype U64 = n: int | 0 <= n < 0x1_0000_0000_0000_0000

  lemma SixteenDigits()
    ensures Pow16(16) == 0x1_0000_0000_0000_0000
  {
    assert Pow16(4) == 0x1_0000;
    assert Pow16(8) == 0x1_0000_0000;
    assert Pow16(12) == 0x1_0000_0000_0000;
  }

  lemma KeyOrder(n: U64, m: U64)
    requires n < m
    ensures Less(NumKey(n as nat), NumKey(m as nat))
  {
    SixteenDigits();
    PaddedIsDigits(n as nat, 16);
    PaddedIsDigits(m as nat, 16);
    DigitsOrder(n as nat, m as nat, 16);
    LessPrefixed("0x", Digits(n as nat, 16), Digits(m as nat, 16));
  }

  /** On all 64-bit numbers the keys are injective and in the numbers' own order. */
  lemma KeysPreserveOrder(n: U64, m: U64)
    ensures Less(NumKey(n as nat), NumKey(m as nat)) <==> n < m
    ensures NumKey(n as nat) == NumKey(m as nat) <==> n == m
    ensures |NumKey(n as nat)| == 18
  {
    LessIrreflexive(NumKey(n as nat));
    if n < m {
      KeyOrder(n, m);
    } else if m < n {
      KeyOrder(m, n);
      if Less(NumKey(n as nat), NumKey(m as nat)) {
        LessTransitive(NumKey(n as nat), NumKey(m as nat), NumKey(n as nat));
      }
    }
    SixteenDigits();
    PaddedIsDigits(n as nat, 16);
    DigitsLength(n as nat, 16);
  }
}
