/**
  The PDF locator: the loop that scans the document directory listing for a
  vendor's files. A file matches when its upper-cased name ends with ".PDF"
  and starts with the vendor's normalized key; the file name itself is only
  upper-cased, never normalized. Matches keep the listing's order, and each
  becomes a path under the document directory.
 */
module Locator {
  import opened Text
  import opened Normalizer

  /** The document directory, as the mailer hard-codes it. */
  const PDF_DIR := "C:\\Users\\andres.lopez.JDELECTRICOS\\Documents\\codes\\send-mails-certificados-retenciones\\pdf"

  /** `os.path.join(PDF_DIR, name)` for a bare file name, on Windows. */
  function PdfPath(name: string): string {
    PDF_DIR + "\\" + name
  }

  /**
    The match test on one listing entry. A matching name, upper-cased, is at
    least as long as the key and as ".PDF"; for an ASCII name, upper-casing
    keeps the length, so the name itself is.
   */
  function IsPdfMatch(u: Unicode, key: string, name: string): (matched: bool)
    ensures matched ==> |key| <= |UpperWith(u, name)| && 4 <= |UpperWith(u, name)|
    ensures matched && AllAscii(name) ==> |key| <= |name| && 4 <= |name|
  {
    var up := UpperWith(u, name);
    var ok := EndsWith(up, ".PDF") && StartsWith(up, key);
    if AllAscii(name) then UpperAscii(u, name); ok else ok
  }

  /** The matching entries of a listing, in listing order. */
  function Matches(u: Unicode, key: string, listing: seq<string>): (found: seq<string>)
    ensures |found| <= |listing|
    decreases |listing|
  {
    if listing == [] then []
    else if IsPdfMatch(u, key, listing[0]) then [listing[0]] + Matches(u, key, listing[1..])
    else Matches(u, key, listing[1..])
  }

  /** An entry is found exactly when it is in the listing and passes the match test. */
  lemma {:induction false} MatchesMembers(u: Unicode, key: string, listing: seq<string>)
    ensures forall f :: f in Matches(u, key, listing) <==> f in listing && IsPdfMatch(u, key, f)
    decreases |listing|
  {
    if listing != [] {
      MatchesMembers(u, key, listing[1..]);
      assert forall f :: f in listing <==> f == listing[0] || f in listing[1..];
    }
  }

  /**
    The attachment path of every name, in order: each path lies in the
    document directory, and the name reads back from it.
   */
  function Paths(names: seq<string>): (paths: seq<string>)
    ensures |paths| == |names|
    ensures forall k :: 0 <= k < |names| ==>
      StartsWith(paths[k], PDF_DIR + "\\") && paths[k][|PDF_DIR| + 1..] == names[k]
  {
    seq(|names|, k requires 0 <= k < |names| => PdfPath(names[k]))
  }

  /** No element occurs twice. */
  predicate Distinct(xs: seq<string>) {
    forall i, j :: 0 <= i < j < |xs| ==> xs[i] != xs[j]
  }

  /** A directory lists each name once, so no file is matched twice. */
  lemma {:induction false} MatchesDistinct(u: Unicode, key: string, listing: seq<string>)
    requires Distinct(listing)
    ensures Distinct(Matches(u, key, listing))
    decreases |listing|
  {
    if listing != [] {
      var tail := listing[1..];
      assert Distinct(tail) by {
        forall i, j | 0 <= i < j < |tail| ensures tail[i] != tail[j] {
          assert tail[i] == listing[i + 1] && tail[j] == listing[j + 1];
        }
      }
      MatchesDistinct(u, key, tail);
      MatchesMembers(u, key, tail);
      assert listing[0] !in tail by {
        forall j | 0 <= j < |tail| ensures tail[j] != listing[0] {
          assert tail[j] == listing[j + 1];
        }
      }
      var rest := Matches(u, key, tail);
      if IsPdfMatch(u, key, listing[0]) {
        var found := Matches(u, key, listing);
        assert found == [listing[0]] + rest;
        forall i, j | 0 <= i < j < |found|
          ensures found[i] != found[j]
        {
          assert found[j] == rest[j - 1] && rest[j - 1] in rest;
          if i == 0 {
            assert found[i] == listing[0] && rest[j - 1] in tail;
          } else {
            assert found[i] == rest[i - 1];
          }
        }
      } else {
        assert Matches(u, key, listing) == rest;
      }
    }
  }

  /** Distinct matched names give distinct attachments. */
  lemma PathsDistinct(names: seq<string>)
    requires Distinct(names)
    ensures Distinct(Paths(names))
  {
    var paths := Paths(names);
    forall i, j | 0 <= i < j < |names|
      ensures paths[i] != paths[j]
    {
      assert paths[i][|PDF_DIR| + 1..] == names[i];
      assert paths[j][|PDF_DIR| + 1..] == names[j];
    }
  }

  /**
    Scanning a listing in two parts finds the first part's matches, then the
    second's: matches come out in listing order.
   */
  lemma {:induction false} MatchesAppend(u: Unicode, key: string, a: seq<string>, b: seq<string>)
    ensures Matches(u, key, a + b) == Matches(u, key, a) + Matches(u, key, b)
    decreases |a|
  {
    if a == [] {
      assert a + b == b;
    } else {
      assert (a + b)[0] == a[0];
      assert (a + b)[1..] == a[1..] + b;
      MatchesAppend(u, key, a[1..], b);
    }
  }

  /** An empty listing yields no matches, never an error. */
  lemma EmptyListingNoMatches(u: Unicode, key: string)
    ensures Matches(u, key, []) == []
  {
  }

  /**
    Prefix matching is loose: a vendor whose key is a prefix of another
    vendor's key is sent every file of the other vendor too.
   */
  lemma PrefixKeysShareFiles(u: Unicode, short: string, long: string, listing: seq<string>)
    requires StartsWith(long, short)
    ensures forall f :: f in Matches(u, long, listing) ==> f in Matches(u, short, listing)
  {
    MatchesMembers(u, long, listing);
    MatchesMembers(u, short, listing);
    forall f | f in Matches(u, long, listing)
      ensures f in Matches(u, short, listing)
    {
      var up := UpperWith(u, f);
      assert up[..|short|] == up[..|long|][..|short|];
    }
  }

  /**
    The empty key (a vendor name of which no ASCII character other than
    `' '` survives decomposition) matches every PDF of the directory.
   */
  lemma EmptyKeyMatchesEveryPdf(u: Unicode, listing: seq<string>)
    ensures forall f :: f in Matches(u, "", listing) <==> f in listing && EndsWith(UpperWith(u, f), ".PDF")
  {
    MatchesMembers(u, "", listing);
  }

  /**
    The locator's loop: walks the listing and appends the path of every
    matching entry.
   */
  method FindPdfs(u: Unicode, key: string, listing: seq<string>) returns (found: seq<string>)
    ensures found == Paths(Matches(u, key, listing))
  {
    found := [];
    var i := 0;
    while i < |listing|
      invariant 0 <= i <= |listing|
      invariant found == Paths(Matches(u, key, listing[..i]))
    {
      var name := listing[i];
      MatchesAppend(u, key, listing[..i], [name]);
      assert listing[..i + 1] == listing[..i] + [name];
      if IsPdfMatch(u, key, name) {
        found := found + [PdfPath(name)];
      }
      i := i + 1;
    }
    assert listing[..i] == listing;
  }
}
