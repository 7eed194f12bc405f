/**
 Byte strings as the validator handles them: case folding and trimming of addresses, the
 byte-wise order `sort.Strings` uses, decimal and hexadecimal rendering, and the canonical
 sorted list of a finite set. A Go string is a `string` here, one `char` per byte.
 */
module Text {

  datatype Option<+T> = None | Some(value: T)

  // ---------------------------------------------------------------- addresses

  function LowerChar(c: char): char {
    if 'A' <= c <= 'Z' then (c as int + 32) as char else c
  }

  /** `strings.ToLower` on ASCII. */
  function Lower(s: string): (r: string)
    ensures |r| == |s|
  {
    seq(|s|, i requires 0 <= i < |s| => LowerChar(s[i]))
  }

  predicate IsSpace(c: char) {
    c == ' ' || 9 <= c as int <= 13
  }

  /** First position from i on that holds no space. */
  function SkipSpaces(s: string, i: nat): (r: nat)
    requires i <= |s|
    ensures i <= r <= |s|
    ensures r < |s| ==> !IsSpace(s[r])
    ensures r > i ==> IsSpace(s[i])
    decreases |s| - i
  {
    if i < |s| && IsSpace(s[i]) then SkipSpaces(s, i + 1) else i
  }

  /** Last end of s[lo..j] that follows no space. */
  function DropSpaces(s: string, lo: nat, j: nat): (r: nat)
    requires lo <= j <= |s|
    ensures lo <= r <= j
    ensures r > lo ==> !IsSpace(s[r - 1])
    ensures r < j ==> IsSpace(s[j - 1])
  {
    if j > lo && IsSpace(s[j - 1]) then DropSpaces(s, lo, j - 1) else j
  }

  /** `strings.TrimSpace` on ASCII. */
  function Trim(s: string): string {
    var lo := SkipSpaces(s, 0);
    s[lo..DropSpaces(s, lo, |s|)]
  }

  /** `normalizeAddr`: lower case of the trimmed address. */
  function Norm(s: string): string {
    Lower(Trim(s))
  }

  lemma LowerIdempotent(s: string)
    ensures Lower(Lower(s)) == Lower(s)
  {
  }

  /** Nothing is left to trim exactly when neither end is a space. */
  predicate Trimmed(s: string) {
    s == [] || (!IsSpace(s[0]) && !IsSpace(s[|s| - 1]))
  }

  lemma TrimFixesTrimmed(s: string)
    ensures Trimmed(Trim(s))
    ensures Trim(s) == s <==> Trimmed(s)
  {
  }

  /** In normal form: lower case and without spaces at the ends. */
  predicate Canonical(s: string) {
    Lower(s) == s && Trimmed(s)
  }

  lemma CanonicalIsNormal(s: string)
    ensures Canonical(s) <==> Norm(s) == s
  {
    TrimFixesTrimmed(s);
    LowerIdempotent(Trim(s));
    LowerKeepsSpaces(Trim(s));
    LowerIdempotent(s);
  }

  lemma LowerKeepsSpaces(s: string)
    ensures Trimmed(Lower(s)) <==> Trimmed(s)
  {
  }

  /** Normalising twice changes nothing: every stored account key is its own normal form. */
  lemma NormIdempotent(s: string)
    ensures Norm(Norm(s)) == Norm(s)
  {
    TrimFixesTrimmed(s);
    LowerIdempotent(Trim(s));
    LowerKeepsSpaces(Trim(s));
    TrimFixesTrimmed(Norm(s));
  }

  /** On an address whose lower case is already in normal form, folding case is normalising. */
  lemma NormOfLower(s: string)
    requires Canonical(Lower(s))
    ensures Norm(s) == Lower(s)
  {
    LowerKeepsSpaces(s);
    TrimFixesTrimmed(s);
  }

  // ---------------------------------------------------------------- order

  /** Go's `<` on strings: byte-wise lexicographic. */
  predicate Less(a: string, b: string) {
    if b == [] then false
    else if a == [] then true
    else if a[0] != b[0] then a[0] < b[0]
    else Less(a[1..], b[1..])
  }

  lemma {:induction false} LessTransitive(a: string, b: string, c: string)
    requires Less(a, b) && Less(b, c)
    ensures Less(a, c)
    decreases |a|
  {
    if a != [] && b != [] && c != [] && a[0] == b[0] == c[0] {
      LessTransitive(a[1..], b[1..], c[1..]);
    }
  }

  lemma {:induction false} LessTotal(a: string, b: string)
    ensures a == b || Less(a, b) || Less(b, a)
    ensures !(Less(a, b) && Less(b, a))
    ensures a == b ==> !Less(a, b)
    decreases |a|
  {
    if a != [] && b != [] && a[0] == b[0] {
      LessTotal(a[1..], b[1..]);
      if a[1..] == b[1..] {
        assert a == [a[0]] + a[1..] == [b[0]] + b[1..] == b;
      }
    }
  }

  ghost predicate StrictlySorted(s: seq<string>) {
    forall i, j | 0 <= i < j < |s| :: Less(s[i], s[j])
  }

  ghost function Elements<T(!new)>(s: seq<T>): set<T> {
    set x | x in s
  }

  ghost predicate Distinct<T>(s: seq<T>) {
    forall i, j | 0 <= i < j < |s| :: s[i] != s[j]
  }

  lemma {:induction false} DistinctCount<T(!new)>(s: seq<T>)
    requires Distinct(s)
    ensures |Elements(s)| == |s|
  {
    if s != [] {
      var rest := s[1..];
      DistinctCount(rest);
      assert s[0] !in rest;
      assert Elements(s) == {s[0]} + Elements(rest);
    }
  }

  lemma SortedDistinct(s: seq<string>)
    requires StrictlySorted(s)
    ensures Distinct(s)
  {
    forall i, j | 0 <= i < j < |s| ensures s[i] != s[j] {
      LessTotal(s[i], s[j]);
    }
  }

  lemma EmptyListing(s: seq<string>)
    ensures s == [] <==> Elements(s) == {}
  {
    if s != [] {
      assert s[0] in Elements(s);
    }
  }

  /** A finite set has at most one strictly sorted listing. */
  lemma {:induction false} SortedUnique(a: seq<string>, b: seq<string>)
    requires StrictlySorted(a) && StrictlySorted(b) && Elements(a) == Elements(b)
    ensures a == b
    decreases |a|
  {
    if a == [] || b == [] {
      EmptyListing(a);
      EmptyListing(b);
    } else {
      assert a[0] in Elements(b) && b[0] in Elements(a);
      var i :| 0 <= i < |b| && b[i] == a[0];
      var j :| 0 <= j < |a| && a[j] == b[0];
      LessTotal(a[0], b[0]);
      assert a[0] == b[0];
      SortedDistinct(a);
      SortedDistinct(b);
      assert Elements(a[1..]) == Elements(a) - {a[0]};
      assert Elements(b[1..]) == Elements(b) - {b[0]};
      SortedUnique(a[1..], b[1..]);
    }
  }

  ghost predicate IsLeast(m: string, s: set<string>) {
    m in s && forall x | x in s && x != m :: Less(m, x)
  }

  lemma {:induction false} LeastExists(s: set<string>)
    requires s != {}
    ensures exists m :: IsLeast(m, s)
    decreases s
  {
    var m :| m in s;
    var rest := s - {m};
    if rest == {} {
      assert s == {m};
      assert IsLeast(m, s);
    } else {
      LeastExists(rest);
      var k :| IsLeast(k, rest);
      LessTotal(m, k);
      if Less(k, m) {
        assert IsLeast(k, s);
      } else {
        forall x | x in s && x != m ensures Less(m, x) {
          if x != k {
            LessTransitive(m, k, x);
          }
        }
        assert IsLeast(m, s);
      }
    }
  }

  /** The canonical listing of a finite set: what sorting its elements yields. */
  ghost function Listing(s: set<string>): (r: seq<string>)
    ensures StrictlySorted(r) && Elements(r) == s
    decreases s
  {
    if s == {} then []
    else
      LeastExists(s);
      var m :| IsLeast(m, s);
      var rest := Listing(s - {m});
      assert forall i | 0 <= i < |rest| :: rest[i] in Elements(rest);
      assert Elements([m] + rest) == {m} + Elements(rest);
      [m] + rest
  }

  // ---------------------------------------------------------------- decimal

  /** `%d` of an unsigned number. */
  function Digits(n: nat): (r: string)
    ensures |r| >= 1
    ensures forall i | 0 <= i < |r| :: '0' <= r[i] <= '9'
    decreases n
  {
    var last := [('0' as int + n % 10) as char];
    if n < 10 then last else Digits(n / 10) + last
  }

  /** `%d` of a signed number. */
  function Decimal(i: int): (r: string)
    ensures '|' !in r
  {
    if i < 0 then "-" + Digits(-i) else Digits(i)
  }

  lemma {:induction false} DigitsInjective(a: nat, b: nat)
    requires Digits(a) == Digits(b)
    ensures a == b
    decreases a
  {
    var da, db := Digits(a), Digits(b);
    assert da[|da| - 1] == db[|db| - 1];
    assert a % 10 == b % 10;
    if a >= 10 && b >= 10 {
      assert Digits(a / 10) == da[..|da| - 1] == db[..|db| - 1] == Digits(b / 10);
      DigitsInjective(a / 10, b / 10);
    }
  }

  lemma DecimalInjective(a: int, b: int)
    requires Decimal(a) == Decimal(b)
    ensures a == b
  {
    assert a < 0 <==> Decimal(a)[0] == '-';
    assert b < 0 <==> Decimal(b)[0] == '-';
    if a < 0 {
      assert Digits(-a) == Decimal(a)[1..] == Decimal(b)[1..] == Digits(-b);
      DigitsInjective(-a, -b);
    } else {
      DigitsInjective(a, b);
    }
  }

  // ---------------------------------------------------------------- separators

  /** A field without separators can be read off the front of a message. */
  lemma SplitFront(a: string, x: string, b: string, y: string)
    requires '|' !in a && '|' !in b
    requires a + "|" + x == b + "|" + y
    ensures a == b && x == y
  {
    var m := a + "|" + x;
    assert m[|a|] == '|' && m[|b|] == '|';
    if |a| < |b| || |b| < |a| {
      assert false;
    }
    assert a == m[..|a|] && b == m[..|b|];
    assert x == m[|a| + 1..] && y == m[|b| + 1..];
  }

  /** A field without separators can be read off the back, whatever stands before it. */
  lemma SplitBack(a: string, x: string, b: string, y: string)
    requires '|' !in x && '|' !in y
    requires a + "|" + x == b + "|" + y
    ensures a == b && x == y
  {
    var m := a + "|" + x;
    var p, q := |a|, |b|;
    assert m[p] == '|' && m[q] == '|';
    if p < q || q < p {
      assert false;
    }
    assert a == m[..p] && b == m[..q];
    assert x == m[p + 1..] && y == m[q + 1..];
  }

  lemma CancelFront(p: string, x: string, y: string)
    requires p + x == p + y
    ensures x == y
  {
    assert x == (p + x)[|p|..] && y == (p + y)[|p|..];
  }

  // ---------------------------------------------------------------- hexadecimal

  /** A SHA-256 digest: 32 bytes. */
  type Digest = s: string | |s| == 32 && forall i | 0 <= i < |s| :: s[i] as int < 256
    witness "00000000000000000000000000000000"

  type Sha = string -> Digest

  /** The hash does not collide on the given payloads. */
  ghost predicate Injective(sha: Sha, payloads: set<string>) {
    forall a, b | a in payloads && b in payloads && sha(a) == sha(b) :: a == b
  }

  function HexDigit(n: nat): char
    requires n < 16
  {
    if n < 10 then ('0' as int + n) as char else ('a' as int + n - 10) as char
  }

  function HexValue(c: char): Option<nat> {
    if '0' <= c <= '9' then Some(c as int - '0' as int)
    else if 'a' <= c <= 'f' then Some(c as int - 'a' as int + 10)
    else if 'A' <= c <= 'F' then Some(c as int - 'A' as int + 10)
    else None
  }

  /** `hex.EncodeToString`. */
  function HexEncode(s: string): (r: string)
    requires forall i | 0 <= i < |s| :: s[i] as int < 256
    ensures |r| == 2 * |s|
    ensures '|' !in r
    ensures forall i | 0 <= i < |r| :: HexValue(r[i]).Some? && LowerChar(r[i]) == r[i] && r[i] != 'x'
  {
    if s == [] then []
    else [HexDigit(s[0] as int / 16), HexDigit(s[0] as int % 16)] + HexEncode(s[1..])
  }

  /** `hex.DecodeString`. */
  function HexDecode(s: string): Option<string> {
    if s == [] then Some([])
    else if |s| == 1 then None
    else
      var rest := HexDecode(s[2..]);
      var hi, lo := HexValue(s[0]), HexValue(s[1]);
      if hi == None || lo == None || rest == None then None
      else Some([(16 * hi.value + lo.value) as char] + rest.value)
  }

  /** `hashHex`. */
  function HashHex(d: Digest): (r: string)
    ensures |r| == 66 && r[0] == '0' && '|' !in r
  {
    "0x" + HexEncode(d)
  }

  function TrimHexPrefix(s: string): string {
    if |s| >= 2 && s[..2] == "0x" then s[2..] else s
  }

  /** `decodeHex32`. */
  function DecodeHex32(s: string): Option<Digest> {
    var b := HexDecode(TrimHexPrefix(Lower(s)));
    if b.Some? && |b.value| == 32 && forall i | 0 <= i < |b.value| :: b.value[i] as int < 256
    then Some(b.value) else None
  }

  lemma {:induction false} HexRoundTrip(s: string)
    requires forall i | 0 <= i < |s| :: s[i] as int < 256
    ensures HexDecode(HexEncode(s)) == Some(s)
    decreases |s|
  {
    if s != [] {
      HexRoundTrip(s[1..]);
      var r := HexEncode(s);
      assert r[2..] == HexEncode(s[1..]);
      assert HexValue(r[0]) == Some(s[0] as int / 16) && HexValue(r[1]) == Some(s[0] as int % 16);
      assert s == [s[0]] + s[1..];
    }
  }

  /** What `hashHex` prints, `decodeHex32` reads back. */
  lemma HashHexRoundTrip(d: Digest)
    ensures DecodeHex32(HashHex(d)) == Some(d)
  {
    HexRoundTrip(d);
    var r := HashHex(d);
    assert Lower(r) == r;
    assert TrimHexPrefix(r) == r[2..] == HexEncode(d);
  }

  lemma HashHexInjective(a: Digest, b: Digest)
    requires HashHex(a) == HashHex(b)
    ensures a == b
  {
    HashHexRoundTrip(a);
    HashHexRoundTrip(b);
  }
}
