/** The one-line rendering of a postal address. */
module Address {
  import opened Wrappers

  /**
   * An address; every text field may be null in memory, whatever the
   * database columns demand.
   */
  datatype Address = Address(
    postalCode: int,
    country: Option<string>,
    city: Option<string>,
    addressLine1: Option<string>,
    addressLine2: Option<string>)

  /** Java string concatenation writes a null reference as "null". */
  function Render(s: Option<string>): string {
    if s.Some? then s.value else "null"
  }

  /** The first line and its separator. */
  function Head(a: Address): string {
    Render(a.addressLine1) + ", "
  }

  /** The city, its separator and the country. */
  function Tail(a: Address): string {
    Render(a.city) + ", " + Render(a.country)
  }

  /**
   * `getFormattedAddress`: first line, second line only when it is not
   * null, city and country, separated by ", ". The postal code is not part
   * of it.
   */
  function FormattedAddress(a: Address): (r: string)
    ensures |r| >= |Head(a)| + |Tail(a)|
    ensures r[..|Head(a)|] == Head(a)
    ensures r[|r| - |Tail(a)|..] == Tail(a)
    ensures a.addressLine2.None? ==> r[|Head(a)|..|r| - |Tail(a)|] == ""
    ensures a.addressLine2.Some? ==> r[|Head(a)|..|r| - |Tail(a)|] == a.addressLine2.value + ", "
  {
    var middle := if a.addressLine2.Some? then a.addressLine2.value + ", " else "";
    var r := Render(a.addressLine1) + ", " + middle + Render(a.city) + ", " + Render(a.country);
    assert r == Head(a) + middle + Tail(a);
    r
  }

  /**
   * The segment between the first line and the city is non-empty exactly
   * when there is a second line; without one the address is first line,
   * city and country alone.
   */
  lemma MiddleSegmentIffSecondLine(a: Address)
    ensures var r := FormattedAddress(a);
      (|r| > |Head(a)| + |Tail(a)|) <==> a.addressLine2.Some?
    ensures a.addressLine2.None? ==> FormattedAddress(a) == Head(a) + Tail(a)
  {
    var r := FormattedAddress(a);
    if a.addressLine2.None? {
      assert r == Head(a) + Tail(a) by {
        assert r == r[..|Head(a)|] + r[|Head(a)|..];
        assert r[|Head(a)|..] == r[|r| - |Tail(a)|..];
      }
    }
  }

  /** The formatted address does not depend on the postal code. */
  lemma PostalCodeIgnored(a: Address, code: int)
    ensures FormattedAddress(a.(postalCode := code)) == FormattedAddress(a)
  {
  }

  /** A null first line reads the same as one holding the text "null". */
  lemma NullLineReadsAsText(a: Address)
    ensures FormattedAddress(a.(addressLine1 := None)) == FormattedAddress(a.(addressLine1 := Some("null")))
  {
  }
}
