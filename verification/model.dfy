/** Data model shared by the record locator and the record editor: the
    provider's records and domains, the change request written back to the
    provider, the error kinds the package reports, and the result wrappers
    the operations return. */
module Model {

  /** An optional value; `None` stands for Go's nil. */
  datatype Option<+T> = None | Some(value: T)

  /** A value or the error that prevented computing it (Go's `(T, error)` pair). */
  datatype Result<+T> = Success(value: T) | Failure(error: Error)

  /** An operation that returns only an error (Go's bare `error` result). */
  datatype Outcome = Pass | Fail(error: Error)

  /** The kinds of error the package reports. Messages are not modelled; the
      payload is the value the source formats into its message. The DNS
      client is an oracle that may answer with any `Error`; `Provider` names
      the kind it reports in practice, and the package passes whatever the
      client answers on unchanged. */
  datatype Error =
    | Provider(cause: string)                          // reported by the DNS client
    | NoRecordFound(subdomain: string, domain: string) // the locator found no matching record
    | InvalidName(name: string)                        // a domain or subdomain failed validation
    | MissingIP                                        // the editor was given a nil IP
    | InvalidRecordType(subject: string)               // delete was given a type other than A or AAAA
    | NoAddressRecord(recordType: string, subdomain: string) // the editor's lookup failed
    | NoUpdateRequired(content: string)                // update found the address already in place
    | MissingEmail
    | MissingToken

  /** A DNS record as the provider returns it; only the fields the package reads. */
  datatype Record = Record(id: int, name: string, content: string, recordType: string, ttl: int)

  /** A domain as the provider returns it. */
  datatype Domain = Domain(name: string)

  /** The payload of a create or update call; the TTL travels as text. */
  datatype ChangeRecord = ChangeRecord(name: string, value: string, recordType: string, ttl: string)

  /** The two address record types. */
  const TypeA: string := "A"
  const TypeAAAA: string := "AAAA"

  /** Canonical decimal digits: nonempty, digits only, no leading zero
      unless the text is "0" itself. */
  predicate IsDigitText(s: string)
  {
    && |s| > 0
    && (forall i :: 0 <= i < |s| ==> '0' <= s[i] <= '9')
    && (s[0] == '0' ==> |s| == 1)
  }

  /** The text Go's `%d` may produce: canonical digits, optionally after a
      minus sign, and never "-0". */
  predicate IsDecimalText(s: string)
  {
    if |s| > 0 && s[0] == '-' then IsDigitText(s[1..]) && s[1..] != "0" else IsDigitText(s)
  }

  /** Decimal text of a natural number, most significant digit first. */
  function Digits(n: nat): (s: string)
    ensures IsDigitText(s)
    ensures s == "0" <==> n == 0
    decreases n
  {
    if n < 10 then [DigitChar(n)] else Digits(n / 10) + [DigitChar(n % 10)]
  }

  function DigitChar(d: nat): (c: char)
    requires d < 10
    ensures '0' <= c <= '9'
    ensures c as int - '0' as int == d
  {
    (d + '0' as int) as char
  }

  /** Go's `%d` (and `%v`) rendering of an integer: a minus sign for
      negatives, then the canonical digits of the magnitude. */
  function Decimal(n: int): (s: string)
    ensures IsDecimalText(s)
    ensures s[0] == '-' <==> n < 0
  {
    if n < 0 then "-" + Digits(-n) else Digits(n)
  }

  /** Reads back a string of decimal digits. */
  function DigitsValue(s: string): nat
  {
    if |s| == 0 then 0
    else 10 * DigitsValue(s[..|s| - 1]) + (if '0' <= s[|s| - 1] <= '9' then s[|s| - 1] as int - '0' as int else 0)
  }

  /** Reads back the text `Decimal` produces. */
  function ParseDecimal(s: string): int
  {
    if |s| > 0 && s[0] == '-' then -(DigitsValue(s[1..]) as int) else DigitsValue(s)
  }

  lemma {:induction false} DigitsRoundTrip(n: nat)
    ensures DigitsValue(Digits(n)) == n
    decreases n
  {
    if n >= 10 {
      var s := Digits(n);
      assert s[..|s| - 1] == Digits(n / 10);
      DigitsRoundTrip(n / 10);
    }
  }

  /** Parsing the decimal rendering gives back the number. */
  lemma DecimalRoundTrip(n: int)
    ensures ParseDecimal(Decimal(n)) == n
  {
    if n < 0 {
      NegativeRoundTrip(n);
    } else {
      DigitsRoundTrip(n);
      assert Decimal(n) == Digits(n);
      assert Digits(n)[0] != '-';
    }
  }

  lemma NegativeRoundTrip(n: int)
    requires n < 0
    ensures ParseDecimal(Decimal(n)) == n
  {
    var digits := Digits(-n);
    var s := "-" + digits;
    assert Decimal(n) == s;
    assert s[1..] == digits;
    DigitsRoundTrip(-n);
  }

  /** Distinct numbers render to distinct text, so an id written as text
      names exactly one record. */
  lemma DecimalInjective(a: int, b: int)
    requires Decimal(a) == Decimal(b)
    ensures a == b
  {
    DecimalRoundTrip(a);
    DecimalRoundTrip(b);
  }

  /** Digits without a leading zero have a nonzero value. */
  lemma {:induction false} LeadingDigitPositive(s: string)
    requires IsDigitText(s) && s[0] != '0'
    ensures DigitsValue(s) >= 1
    decreases |s|
  {
    if |s| > 1 {
      var p := s[..|s| - 1];
      assert p[0] == s[0];
      LeadingDigitPositive(p);
    }
  }

  /** Canonical digits are the rendering of the value they denote. */
  lemma {:induction false} DigitsCanonical(s: string)
    requires IsDigitText(s)
    ensures Digits(DigitsValue(s)) == s
    decreases |s|
  {
    var last := s[|s| - 1] as int - '0' as int;
    if |s| == 1 {
      assert DigitsValue(s) == last;
    } else {
      var p := s[..|s| - 1];
      assert p[0] == s[0];
      DigitsCanonical(p);
      LeadingDigitPositive(p);
      var n := DigitsValue(s);
      assert n == 10 * DigitsValue(p) + last;
      assert n / 10 == DigitsValue(p) && n % 10 == last;
      assert s == p + [s[|s| - 1]];
    }
  }

  /** Every text `%d` can produce is the rendering of the number it reads
      as; with `DecimalRoundTrip`, `Decimal` and `ParseDecimal` are inverse
      bijections between the integers and the canonical decimal texts. */
  lemma DecimalCanonical(s: string)
    requires IsDecimalText(s)
    ensures Decimal(ParseDecimal(s)) == s
  {
    if |s| > 0 && s[0] == '-' {
      var t := s[1..];
      DigitsCanonical(t);
      assert DigitsValue(t) != 0;
      assert s == "-" + t;
    } else {
      DigitsCanonical(s);
    }
  }

  /** A canonical decimal text that reads as `n` is exactly `Decimal(n)`. */
  lemma DecimalUnique(s: string, n: int)
    requires IsDecimalText(s) && ParseDecimal(s) == n
    ensures s == Decimal(n)
  {
    DecimalCanonical(s);
  }
}
