/**
 The text form of a ULID (ULID specification, "Canonical String Representation"): 26 characters
 of Crockford's base 32, most significant first.
 */
module UlidText {
  import opened Core

  const ALPHABET: string := "0123456789ABCDEFGHJKMNPQRSTVWXYZ"
  const LENGTH: nat := 26

  function Pow32(n: nat): (p: nat)
    ensures p >= 1
  {
    if n == 0 then 1 else 32 * Pow32(n - 1)
  }

  /** The last n base-32 digits of x. */
  function Digits(x: nat, n: nat): (s: string)
    ensures |s| == n
    decreases n
  {
    if n == 0 then "" else Digits(x / 32, n - 1) + [ALPHABET[x % 32]]
  }

  function ToText(id: Id): string {
    Digits(id, LENGTH)
  }

  /** Byte-wise comparison of text, as the database orders it. */
  predicate TextLess(a: string, b: string) {
    b != "" && (a == "" || a[0] < b[0] || (a[0] == b[0] && TextLess(a[1..], b[1..])))
  }

  lemma AlphabetAscends(i: nat, j: nat)
    requires i < j < 32
    ensures ALPHABET[i] < ALPHABET[j]
    decreases j - i
  {
    if i + 1 < j {
      AlphabetAscends(i + 1, j);
    }
    assert ALPHABET[i] < ALPHABET[i + 1];
  }

  lemma {:induction false} TextLessSnoc(a: string, b: string, x: char, y: char)
    requires |a| == |b|
    ensures TextLess(a + [x], b + [y]) <==> TextLess(a, b) || (a == b && x < y)
    decreases |a|
  {
    if a == "" {
      assert (a + [x])[1..] == "" && (b + [y])[1..] == "";
    } else {
      assert (a + [x])[1..] == a[1..] + [x] && (b + [y])[1..] == b[1..] + [y];
      TextLessSnoc(a[1..], b[1..], x, y);
      assert a == b <==> a[0] == b[0] && a[1..] == b[1..] by {
        assert a == [a[0]] + a[1..] && b == [b[0]] + b[1..];
      }
    }
  }

  lemma {:induction false} DigitsOrder(x: nat, y: nat, n: nat)
    requires x < Pow32(n) && y < Pow32(n)
    ensures Digits(x, n) == Digits(y, n) <==> x == y
    ensures TextLess(Digits(x, n), Digits(y, n)) <==> x < y
    decreases n
  {
    if n > 0 {
      DigitsOrder(x / 32, y / 32, n - 1);
      var cx, cy := ALPHABET[x % 32], ALPHABET[y % 32];
      TextLessSnoc(Digits(x / 32, n - 1), Digits(y / 32, n - 1), cx, cy);
      if x % 32 < y % 32 {
        AlphabetAscends(x % 32, y % 32);
      } else if y % 32 < x % 32 {
        AlphabetAscends(y % 32, x % 32);
      }
      assert Digits(x, n)[..n - 1] == Digits(x / 32, n - 1) && Digits(x, n)[n - 1] == cx;
      assert Digits(y, n)[..n - 1] == Digits(y / 32, n - 1) && Digits(y, n)[n - 1] == cy;
    }
  }

  lemma IdsFit()
    ensures Pow32(LENGTH) == 4 * 0x1_0000_0000_0000_0000_0000_0000_0000_0000
  {
    assert Pow32(8) == 0x100_0000_0000;
    assert Pow32(16) == 0x1_0000_0000_0000_0000_0000;
    assert Pow32(24) == 0x100_0000_0000_0000_0000_0000_0000_0000;
  }

  /** The fixed-width text form names each identifier once, and orders them as their numbers do. */
  lemma TextPreservesOrder(a: Id, b: Id)
    ensures ToText(a) == ToText(b) <==> a == b
    ensures TextLess(ToText(a), ToText(b)) <==> a < b
  {
    IdsFit();
    DigitsOrder(a, b, LENGTH);
  }

  // ----- reading it back -----

  function DigitOf(c: char): Option<nat> {
    if '0' <= c <= '9' then Some((c - '0') as nat)
    else if 'A' <= c <= 'H' then Some(10 + (c - 'A') as nat)
    else if 'J' <= c <= 'K' then Some(18 + (c - 'J') as nat)
    else if 'M' <= c <= 'N' then Some(20 + (c - 'M') as nat)
    else if 'P' <= c <= 'T' then Some(22 + (c - 'P') as nat)
    else if 'V' <= c <= 'Z' then Some(27 + (c - 'V') as nat)
    else None
  }

  function ParseDigits(s: string): Option<nat> {
    if s == "" then Some(0)
    else
      match (ParseDigits(s[..|s| - 1]), DigitOf(s[|s| - 1]))
      case (Some(high), Some(low)) => Some(32 * high + low)
      case (_, _) => None
  }

  /** Reads the canonical spelling; what else the library accepts does not matter here. */
  function FromText(s: string): Option<Id> {
    if |s| != LENGTH then None
    else
      match ParseDigits(s)
      case Some(n) => if n < 0x1_0000_0000_0000_0000_0000_0000_0000_0000 then Some(n) else None
      case None => None
  }

  lemma DigitOfAlphabet(i: nat)
    requires i < 32
    ensures DigitOf(ALPHABET[i]) == Some(i)
  {
  }

  lemma {:induction false} ParseOfDigits(x: nat, n: nat)
    requires x < Pow32(n)
    ensures ParseDigits(Digits(x, n)) == Some(x)
    decreases n
  {
    if n > 0 {
      ParseOfDigits(x / 32, n - 1);
      DigitOfAlphabet(x % 32);
      assert Digits(x, n)[..n - 1] == Digits(x / 32, n - 1);
    }
  }

  lemma TextRoundTrip(id: Id)
    ensures FromText(ToText(id)) == Some(id)
  {
    IdsFit();
    ParseOfDigits(id, LENGTH);
  }

  /** Crockford's alphabet: digits and capitals, without the four that are easily misread. */
  predicate IsCrockford(c: char) {
    ('0' <= c <= '9' || 'A' <= c <= 'Z') && c != 'I' && c != 'L' && c != 'O' && c != 'U'
  }

  lemma {:induction false} DigitsAreCrockford(x: nat, n: nat)
    ensures forall c <- Digits(x, n) :: IsCrockford(c)
    decreases n
  {
    if n > 0 {
      DigitsAreCrockford(x / 32, n - 1);
    }
  }

  lemma TextIsCrockford(id: Id)
    ensures |ToText(id)| == 26 && forall c <- ToText(id) :: IsCrockford(c)
  {
    DigitsAreCrockford(id, LENGTH);
  }
}
