/**
  Vendor loading: the loop over the spreadsheet rows that builds the vendor
  list. A row without a vendor name is dropped; otherwise the name and the
  email are stripped of surrounding whitespace, and a missing email becomes
  the empty string (which the dispatch loop later rejects).
 */
module Vendors {
  import opened Wrappers
  import opened Text

  /** One spreadsheet row: the "proveedor" and "correo" cells, either of which may be missing. */
  datatype Row = Row(name: Option<string>, email: Option<string>)

  /** A vendor record as the dispatch loop sees it. */
  datatype Vendor = Vendor(name: string, email: string)

  /**
    The record a named row becomes: the row's name and email cells, each
    stripped, so both are their own `strip()`; a row without an email gives
    the empty email.
   */
  function VendorOf(row: Row): (v: Vendor)
    requires row.name.Some?
    ensures v.name == Strip(row.name.value)
    ensures row.email.Some? ==> v.email == Strip(row.email.value)
    ensures Strip(v.name) == v.name
    ensures Strip(v.email) == v.email
    ensures row.email.None? ==> v.email == ""
  {
    StripIdempotent(row.name.value);
    if row.email.Some? then
      StripIdempotent(row.email.value);
      Vendor(Strip(row.name.value), Strip(row.email.value))
    else
      Vendor(Strip(row.name.value), "")
  }

  /** The vendor list the rows yield, in row order. */
  function VendorsOf(rows: seq<Row>): (vs: seq<Vendor>)
    ensures |vs| <= |rows|
    decreases |rows|
  {
    if rows == [] then []
    else if rows[0].name.Some? then [VendorOf(rows[0])] + VendorsOf(rows[1..])
    else VendorsOf(rows[1..])
  }

  /** Every named row yields its record, and every record comes from a named row. */
  lemma {:induction false} VendorsOfMembers(rows: seq<Row>)
    ensures forall r :: r in rows && r.name.Some? ==> VendorOf(r) in VendorsOf(rows)
    ensures forall v :: v in VendorsOf(rows) ==> exists r :: r in rows && r.name.Some? && v == VendorOf(r)
    decreases |rows|
  {
    if rows != [] {
      VendorsOfMembers(rows[1..]);
      assert forall r :: r in rows <==> r == rows[0] || r in rows[1..];
    }
  }

  /** Loading two batches of rows is loading each, in order. */
  lemma {:induction false} VendorsOfAppend(a: seq<Row>, b: seq<Row>)
    ensures VendorsOf(a + b) == VendorsOf(a) + VendorsOf(b)
    decreases |a|
  {
    if a == [] {
      assert a + b == b;
    } else {
      assert (a + b)[0] == a[0];
      assert (a + b)[1..] == a[1..] + b;
      VendorsOfAppend(a[1..], b);
    }
  }

  /** The number of rows that carry a vendor name. */
  function NamedRows(rows: seq<Row>): nat
    decreases |rows|
  {
    if rows == [] then 0 else (if rows[0].name.Some? then 1 else 0) + NamedRows(rows[1..])
  }

  /** Exactly one vendor per named row: nothing named is dropped, nothing is merged. */
  lemma {:induction false} OneVendorPerNamedRow(rows: seq<Row>)
    ensures |VendorsOf(rows)| == NamedRows(rows)
    decreases |rows|
  {
    if rows != [] {
      OneVendorPerNamedRow(rows[1..]);
    }
  }

  /** The loading loop: appends one record per named row. */
  method LoadVendors(rows: seq<Row>) returns (vendors: seq<Vendor>)
    ensures vendors == VendorsOf(rows)
  {
    vendors := [];
    var i := 0;
    while i < |rows|
      invariant 0 <= i <= |rows|
      invariant vendors == VendorsOf(rows[..i])
    {
      var row := rows[i];
      VendorsOfAppend(rows[..i], [row]);
      assert rows[..i + 1] == rows[..i] + [row];
      if row.name.Some? {
        var email := if row.email.Some? then Strip(row.email.value) else "";
        vendors := vendors + [Vendor(Strip(row.name.value), email)];
      }
      i := i + 1;
    }
    assert rows[..i] == rows;
  }
}
