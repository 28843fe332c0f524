/**
 * PHP's dynamically typed values, the scalar conversions the extension relies on
 * ((string), (int), (bool), truthiness), and PHP's ordered string-keyed arrays.
 */
module PhpValues {
  import opened Wrappers

  /** A PHP array key. */
  datatype Key = IntKey(i: int) | StrKey(s: string)

  /**
   * A PHP value as the extension sees it. Floats and objects are not modelled;
   * arrays keep their entries in insertion order.
   */
  datatype Value =
    | Null
    | Bool(b: bool)
    | Int(i: int)
    | Str(s: string)
    | Arr(entries: seq<(Key, Value)>)

  const EmptyArray: Value := Arr([])

  // ---------------------------------------------------------------------------
  // Decimal text

  predicate IsDigit(c: char) {
    '0' <= c <= '9'
  }

  predicate AllDigits(s: string) {
    forall i :: 0 <= i < |s| ==> IsDigit(s[i])
  }

  function DigitChar(d: nat): (c: char)
    requires d < 10
    ensures IsDigit(c)
  {
    ('0' as int + d) as char
  }

  function DigitValue(c: char): (d: nat)
    requires IsDigit(c)
    ensures d < 10
  {
    c as int - '0' as int
  }

  /** The decimal digits of `n`, most significant first, without leading zeros. */
  function NatToDecimal(n: nat): (r: string)
    ensures |r| >= 1 && AllDigits(r)
    ensures n < 10 <==> |r| == 1
    decreases n
  {
    if n < 10 then [DigitChar(n)] else NatToDecimal(n / 10) + [DigitChar(n % 10)]
  }

  /** PHP's `(string)` of an integer: decimal text with a leading '-' when negative. */
  function IntToDecimal(n: int): string {
    if n < 0 then "-" + NatToDecimal(-n) else NatToDecimal(n)
  }

  /** The number written by a run of decimal digits (0 for the empty run). */
  function DigitsValue(s: string): nat
    requires AllDigits(s)
  {
    if s == [] then 0 else DigitsValue(s[..|s| - 1]) * 10 + DigitValue(s[|s| - 1])
  }

  /** The longest prefix of `s` made of decimal digits. */
  function LeadingDigits(s: string): (r: string)
    ensures AllDigits(r) && r <= s
    ensures |r| < |s| ==> !IsDigit(s[|r|])
  {
    if s == [] || !IsDigit(s[0]) then [] else [s[0]] + LeadingDigits(s[1..])
  }

  /**
   * PHP's `(int)` of a string: an optional sign followed by the leading digits;
   * a string without leading digits converts to 0.
   */
  function StringToInt(s: string): int {
    if |s| > 0 && s[0] == '-' then -(DigitsValue(LeadingDigits(s[1..])) as int)
    else if |s| > 0 && s[0] == '+' then DigitsValue(LeadingDigits(s[1..]))
    else DigitsValue(LeadingDigits(s))
  }

  lemma {:induction false} LeadingDigitsOfDigits(s: string)
    requires AllDigits(s)
    ensures LeadingDigits(s) == s
  {
    if s != [] {
      LeadingDigitsOfDigits(s[1..]);
    }
  }

  lemma {:induction false} NatToDecimalValue(n: nat)
    ensures DigitsValue(NatToDecimal(n)) == n
    decreases n
  {
    if n >= 10 {
      var r := NatToDecimal(n);
      assert r[..|r| - 1] == NatToDecimal(n / 10);
      NatToDecimalValue(n / 10);
    }
  }

  /** Decimal text converts back to the integer it was made from. */
  lemma DecimalRoundTrip(n: int)
    ensures StringToInt(IntToDecimal(n)) == n
  {
    var m: nat := if n < 0 then -n else n;
    var d := NatToDecimal(m);
    LeadingDigitsOfDigits(d);
    NatToDecimalValue(m);
    assert IsDigit(d[0]);
    if n < 0 {
      assert IntToDecimal(n)[1..] == d;
    }
  }

  // ---------------------------------------------------------------------------
  // PHP conversions

  /** PHP's `(string)` cast (an array converts to the text "Array"). */
  function ToPhpString(v: Value): string {
    match v
    case Null => ""
    case Bool(b) => if b then "1" else ""
    case Int(i) => IntToDecimal(i)
    case Str(s) => s
    case Arr(_) => "Array"
  }

  /** PHP's `(int)` cast. */
  function ToPhpInt(v: Value): int {
    match v
    case Null => 0
    case Bool(b) => if b then 1 else 0
    case Int(i) => i
    case Str(s) => StringToInt(s)
    case Arr(e) => if |e| > 0 then 1 else 0
  }

  /** PHP's `(bool)` cast: what `if ($v)`, `?:` and `!empty($v)` test. */
  predicate Truthy(v: Value) {
    match v
    case Null => false
    case Bool(b) => b
    case Int(i) => i != 0
    case Str(s) => s != "" && s != "0"
    case Arr(e) => |e| > 0
  }

  /** Truthiness of a nullable string column. */
  predicate TruthyText(s: Option<string>) {
    s.Some? && Truthy(Str(s.value))
  }

  // ---------------------------------------------------------------------------
  // ASCII case (PHP's strtolower/ucfirst are byte-wise and locale-free)

  function LowerChar(c: char): char {
    if 'A' <= c <= 'Z' then (c as int + 32) as char else c
  }

  function UpperChar(c: char): char {
    if 'a' <= c <= 'z' then (c as int - 32) as char else c
  }

  function Lower(s: string): (r: string)
    ensures |r| == |s| && forall i :: 0 <= i < |s| ==> r[i] == LowerChar(s[i])
  {
    seq(|s|, i requires 0 <= i < |s| => LowerChar(s[i]))
  }

  /** PHP's `ucfirst`: the first character upper-cased, the rest unchanged. */
  function UcFirst(s: string): (r: string)
    ensures |r| == |s|
    ensures |s| > 0 ==> r[0] == UpperChar(s[0]) && r[1..] == s[1..]
  {
    if s == [] then s else [UpperChar(s[0])] + s[1..]
  }

  /** Upper-casing the first character does not change the lower-cased text. */
  lemma LowerUcFirst(s: string)
    ensures Lower(UcFirst(s)) == Lower(s)
  {
    if s != [] {
      assert Lower(UcFirst(s))[0] == Lower(s)[0];
    }
  }

  // ---------------------------------------------------------------------------
  // Ordered string-keyed PHP arrays

  /** A PHP array of values whose keys are strings, in insertion order. */
  type Assoc = seq<(string, Value)>

  // The functions below work on string-keyed arrays of any element type.

  function KeySet<V>(a: seq<(string, V)>): (r: set<string>)
    ensures forall k :: k in r <==> exists i :: 0 <= i < |a| && a[i].0 == k
  {
    set i | 0 <= i < |a| :: a[i].0
  }

  /** `$a[$k]` when `array_key_exists($k, $a)`, else None (the stored value may itself be Null). */
  function Lookup<V>(a: seq<(string, V)>, k: string): (r: Option<V>)
    ensures r.Some? <==> k in KeySet(a)
    ensures r.Some? ==> exists i :: 0 <= i < |a| && a[i] == (k, r.value)
  {
    if a == [] then None
    else if a[0].0 == k then Some(a[0].1)
    else
      var r := Lookup(a[1..], k);
      assert r.Some? ==> exists i :: 0 <= i < |a[1..]| && a[1..][i] == (k, r.value);
      r
  }

  /** `$a[$k] = $v`: replaces the entry in place when the key exists, else appends. */
  function Put<V>(a: seq<(string, V)>, k: string, v: V): (r: seq<(string, V)>)
    ensures Lookup(r, k) == Some(v)
    ensures forall k' :: k' != k ==> Lookup(r, k') == Lookup(a, k')
  {
    if a == [] then [(k, v)]
    else if a[0].0 == k then [(k, v)] + a[1..]
    else
      [a[0]] + Put(a[1..], k, v)
  }

  /** The array as a key-to-value map. */
  function ToMap<V>(a: seq<(string, V)>): (m: map<string, V>)
    ensures m.Keys == KeySet(a)
    ensures forall k :: k in m ==> Lookup(a, k) == Some(m[k])
  {
    map k | k in KeySet(a) :: Lookup(a, k).value
  }

  /** No key occurs twice (true of every PHP array). */
  predicate DistinctKeys<V>(a: seq<(string, V)>) {
    forall i, j :: 0 <= i < j < |a| ==> a[i].0 != a[j].0
  }

  /** Assigning through a key adds exactly that key. */
  lemma PutKeySet<V>(a: seq<(string, V)>, k: string, v: V)
    ensures KeySet(Put(a, k, v)) == KeySet(a) + {k}
  {
    var r := Put(a, k, v);
    forall k' ensures k' in KeySet(r) <==> k' in KeySet(a) + {k} {
      if k' != k {
        assert Lookup(r, k') == Lookup(a, k');
      }
    }
  }

  /** Assigning through a key keeps the keys distinct and adds exactly that key. */
  lemma {:induction false} PutKeys<V>(a: seq<(string, V)>, k: string, v: V)
    requires DistinctKeys(a)
    ensures DistinctKeys(Put(a, k, v))
    ensures KeySet(Put(a, k, v)) == KeySet(a) + {k}
  {
    PutKeySet(a, k, v);
    var r := Put(a, k, v);
    if a != [] && a[0].0 != k {
      PutKeys(a[1..], k, v);
      var rest := Put(a[1..], k, v);
      assert a[0].0 !in KeySet(a[1..]) by {
        forall i | 0 <= i < |a[1..]| ensures a[1..][i].0 != a[0].0 {
          assert a[1..][i] == a[i + 1];
        }
      }
      assert Lookup(rest, a[0].0).None?;
      forall i, j | 0 <= i < j < |r| ensures r[i].0 != r[j].0 {
        if i == 0 {
          assert r[j] == rest[j - 1];
          assert rest[j - 1].0 in KeySet(rest);
        } else {
          assert r[i] == rest[i - 1] && r[j] == rest[j - 1];
        }
      }
    }
  }

  /** Assigning through a key the array does not have yet appends the entry at the end. */
  lemma {:induction false} PutFresh<V>(a: seq<(string, V)>, k: string, v: V)
    requires k !in KeySet(a)
    ensures Put(a, k, v) == a + [(k, v)]
  {
    if a != [] {
      assert k !in KeySet(a[1..]) by {
        forall i | 0 <= i < |a[1..]| ensures a[1..][i].0 != k {
          assert a[1..][i] == a[i + 1];
        }
      }
      PutFresh(a[1..], k, v);
      assert [a[0]] + (a[1..] + [(k, v)]) == a + [(k, v)];
    }
  }

  /** In a concatenation the first array answers for its own keys and the second for the rest. */
  lemma {:induction false} LookupConcat<V>(a: seq<(string, V)>, b: seq<(string, V)>, k: string)
    ensures Lookup(a + b, k) == if k in KeySet(a) then Lookup(a, k) else Lookup(b, k)
  {
    if a != [] {
      assert (a + b)[1..] == a[1..] + b;
      LookupConcat(a[1..], b, k);
      if a[0].0 != k && k in KeySet(a) {
        var i :| 0 <= i < |a| && a[i].0 == k;
        assert a[1..][i - 1] == a[i];
      }
    } else {
      assert a + b == b;
    }
  }

  /** `array_merge($a, $b)` on string keys: each entry of `b` assigned into `a`, in order. */
  function Merge<V>(a: seq<(string, V)>, b: seq<(string, V)>): seq<(string, V)>
    decreases |b|
  {
    if b == [] then a else Merge(Put(a, b[0].0, b[0].1), b[1..])
  }

  /** In a merge, `b`'s entry wins where it has the key, and `a` answers elsewhere. */
  lemma {:induction false} MergeLookup<V>(a: seq<(string, V)>, b: seq<(string, V)>, k: string)
    requires DistinctKeys(b)
    ensures Lookup(Merge(a, b), k) == if k in KeySet(b) then Lookup(b, k) else Lookup(a, k)
    decreases |b|
  {
    if b != [] {
      var a' := Put(a, b[0].0, b[0].1);
      assert DistinctKeys(b[1..]) by {
        forall i, j | 0 <= i < j < |b[1..]| ensures b[1..][i].0 != b[1..][j].0 {
          assert b[1..][i] == b[i + 1] && b[1..][j] == b[j + 1];
        }
      }
      MergeLookup(a', b[1..], k);
      if k == b[0].0 {
        assert k !in KeySet(b[1..]) by {
          forall i | 0 <= i < |b[1..]| ensures b[1..][i].0 != k {
            assert b[1..][i] == b[i + 1];
          }
        }
      }
    }
  }
}
