/** The identity a worker gives its DEALER socket: `worker-<index>-<token>`. */
module Identity {
  import opened Wrappers

  const Prefix: string := "worker-"

  predicate IsDigit(c: char) {
    '0' <= c <= '9'
  }

  predicate AllDigits(s: string) {
    forall k :: 0 <= k < |s| ==> IsDigit(s[k])
  }

  function DigitChar(d: nat): (c: char)
    requires d < 10
  {
    (48 + d) as char
  }

  /** Python's `str` of a natural number: its decimal digits, most significant first. */
  function NatToString(n: nat): (s: string)
    ensures s != [] && AllDigits(s)
    decreases n
  {
    if n < 10 then [DigitChar(n)] else NatToString(n / 10) + [DigitChar(n % 10)]
  }

  /** Python's `str` of an integer, as the f-string on the index uses it. */
  function IntToString(i: int): string {
    if i < 0 then "-" + NatToString(-i) else NatToString(i)
  }

  /** The number a string of decimal digits denotes. */
  function DigitsValue(s: string): nat
    requires AllDigits(s)
  {
    if s == [] then 0 else DigitsValue(s[..|s| - 1]) * 10 + (s[|s| - 1] as int - 48)
  }

  /** The length of the longest run of digits that `s` starts with. */
  function DigitSpan(s: string): (k: nat)
    ensures k <= |s| && AllDigits(s[..k])
    ensures k < |s| ==> !IsDigit(s[k])
  {
    if s == [] || !IsDigit(s[0]) then 0 else 1 + DigitSpan(s[1..])
  }

  /** The worker identity for index `index` and the fresh `uuid4` text `token`. */
  function WorkerIdentity(index: int, token: string): string {
    Prefix + IntToString(index) + "-" + token
  }

  /** Reads an identity back as its index and token; `None` for text of another shape. */
  function ParseWorkerIdentity(id: string): Option<(int, string)> {
    if |id| < |Prefix| || id[..|Prefix|] != Prefix then None
    else ParseIndexAndToken(id[|Prefix|..])
  }

  /** Reads `<index>-<token>`: an optional '-', at least one digit, a '-', then the token. */
  function ParseIndexAndToken(rest: string): Option<(int, string)> {
    var negative := rest != [] && rest[0] == '-';
    var digits := if negative then rest[1..] else rest;
    var k := DigitSpan(digits);
    if k == 0 || k == |digits| || digits[k] != '-' then None
    else
      var magnitude: int := DigitsValue(digits[..k]);
      Some((if negative then -magnitude else magnitude, digits[k + 1..]))
  }

  lemma {:induction false} NatToStringValue(n: nat)
    ensures DigitsValue(NatToString(n)) == n
    decreases n
  {
    if n >= 10 {
      var s := NatToString(n);
      assert s[..|s| - 1] == NatToString(n / 10);
      NatToStringValue(n / 10);
    }
  }

  lemma {:induction false} DigitSpanOfDigits(ds: string, rest: string)
    requires AllDigits(ds)
    requires rest == [] || !IsDigit(rest[0])
    ensures DigitSpan(ds + rest) == |ds|
  {
    if ds != [] {
      assert (ds + rest)[1..] == ds[1..] + rest;
      DigitSpanOfDigits(ds[1..], rest);
    } else {
      assert ds + rest == rest;
    }
  }

  /** After the optional sign, an identity holds the index's digits, a '-', then the token. */
  lemma DigitsThenToken(digits: string, ds: string, token: string)
    requires ds != [] && AllDigits(ds)
    requires digits == ds + "-" + token
    ensures DigitSpan(digits) == |ds|
    ensures digits[..|ds|] == ds && digits[|ds|] == '-' && digits[|ds| + 1..] == token
  {
    assert digits == ds + ("-" + token);
    DigitSpanOfDigits(ds, "-" + token);
  }

  lemma NonNegativeIndexRoundTrip(n: nat, token: string)
    ensures ParseIndexAndToken(NatToString(n) + "-" + token) == Some((n, token))
  {
    var ds := NatToString(n);
    var rest := ds + "-" + token;
    assert rest[0] == ds[0] && IsDigit(ds[0]);
    DigitsThenToken(rest, ds, token);
    NatToStringValue(n);
  }

  lemma NegativeIndexRoundTrip(n: nat, token: string)
    requires n > 0
    ensures ParseIndexAndToken("-" + NatToString(n) + "-" + token) == Some((-(n as int), token))
  {
    var ds := NatToString(n);
    var rest := "-" + ds + "-" + token;
    assert rest[1..] == ds + "-" + token;
    DigitsThenToken(rest[1..], ds, token);
    NatToStringValue(n);
  }

  lemma IndexAndTokenRoundTrip(index: int, token: string)
    ensures ParseIndexAndToken(IntToString(index) + "-" + token) == Some((index, token))
  {
    if index < 0 {
      NegativeIndexRoundTrip(-index, token);
    } else {
      NonNegativeIndexRoundTrip(index, token);
    }
  }

  /**
   * The identity determines the worker's index and token: reading it back gives both,
   * whatever the token holds (a uuid4 text contains '-' itself) and whatever the sign of the index.
   */
  lemma WorkerIdentityRoundTrip(index: int, token: string)
    ensures ParseWorkerIdentity(WorkerIdentity(index, token)) == Some((index, token))
  {
    var id := WorkerIdentity(index, token);
    assert id[..|Prefix|] == Prefix;
    assert id[|Prefix|..] == IntToString(index) + "-" + token;
    IndexAndTokenRoundTrip(index, token);
  }
}
