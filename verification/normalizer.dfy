/**
  The name normalizer `normalizar`: NFKD decomposition, dropping every
  non-ASCII character, removing the space character ' ', upper-casing.

  Unicode's tables are not part of this model. The two per-character maps
  the normalizer and the document locator rely on, NFKD decomposition and
  `str.upper()`, are given as a `CharTables` value; the only facts assumed
  about them are the ones Unicode guarantees for ASCII: an ASCII character
  decomposes to itself, and upper-casing it changes only 'a'..'z'.
  Decomposing character by character gives the same ASCII characters as
  NFKD of the whole string, since NFKD's canonical reordering only moves
  combining marks, none of which is ASCII.
 */
module Normalizer {
  import opened Text

  datatype CharTables = CharTables(decompose: char -> string, upper: char -> string)

  /** What Unicode fixes for ASCII characters. */
  predicate FixesAscii(t: CharTables) {
    forall c: char :: IsAscii(c) ==> t.decompose(c) == [c] && t.upper(c) == [AsciiUpperChar(c)]
  }

  type Unicode = t: CharTables | FixesAscii(t)
    witness CharTables(c => [c], c => [AsciiUpperChar(c)])

  predicate AllAscii(s: string) {
    forall c :: c in s ==> IsAscii(c)
  }

  /** `unicodedata.normalize('NFKD', s)`, one character at a time. */
  function Decompose(u: Unicode, s: string): string
    decreases |s|
  {
    if s == [] then [] else u.decompose(s[0]) + Decompose(u, s[1..])
  }

  /** `s.encode('ascii', 'ignore').decode('ascii')`: keeps the ASCII characters, in order. */
  function AsciiOnly(s: string): string
    decreases |s|
  {
    if s == [] then []
    else if IsAscii(s[0]) then [s[0]] + AsciiOnly(s[1..])
    else AsciiOnly(s[1..])
  }

  /** `s.replace(" ", "")`: only the space character goes, tabs and other whitespace stay. */
  function RemoveSpaces(s: string): string
    decreases |s|
  {
    if s == [] then []
    else if s[0] == ' ' then RemoveSpaces(s[1..])
    else [s[0]] + RemoveSpaces(s[1..])
  }

  /** `s.upper()`, one character at a time (Python's full case mapping is per character). */
  function UpperWith(u: Unicode, s: string): string
    decreases |s|
  {
    if s == [] then [] else u.upper(s[0]) + UpperWith(u, s[1..])
  }

  /** What survives the ASCII filter: exactly the ASCII characters of the input. */
  lemma {:induction false} AsciiOnlyChars(s: string)
    ensures forall c :: c in AsciiOnly(s) <==> c in s && IsAscii(c)
    decreases |s|
  {
    if s != [] {
      AsciiOnlyChars(s[1..]);
      assert forall c :: c in s <==> c == s[0] || c in s[1..];
    }
  }

  /** What survives space removal: exactly the characters of the input other than ' '. */
  lemma {:induction false} RemoveSpacesChars(s: string)
    ensures forall c :: c in RemoveSpaces(s) <==> c in s && c != ' '
    decreases |s|
  {
    if s != [] {
      RemoveSpacesChars(s[1..]);
      assert forall c :: c in s <==> c == s[0] || c in s[1..];
    }
  }

  /** An ASCII character decomposes to itself. */
  lemma {:induction false} DecomposeAscii(u: Unicode, s: string)
    requires AllAscii(s)
    ensures Decompose(u, s) == s
    decreases |s|
  {
    if s != [] {
      assert s[0] in s;
      DecomposeAscii(u, s[1..]);
    }
  }

  /** Dropping non-ASCII characters leaves an ASCII string alone. */
  lemma {:induction false} AsciiOnlyAscii(s: string)
    requires AllAscii(s)
    ensures AsciiOnly(s) == s
    decreases |s|
  {
    if s != [] {
      assert s[0] in s;
      AsciiOnlyAscii(s[1..]);
    }
  }

  /** Removing spaces leaves a string without spaces alone. */
  lemma {:induction false} RemoveSpacesNoSpace(s: string)
    requires ' ' !in s
    ensures RemoveSpaces(s) == s
    decreases |s|
  {
    if s != [] {
      assert s[0] in s;
      RemoveSpacesNoSpace(s[1..]);
    }
  }

  /** Upper-casing an ASCII string changes only 'a'..'z', character by character. */
  lemma {:induction false} UpperAscii(u: Unicode, s: string)
    requires AllAscii(s)
    ensures |UpperWith(u, s)| == |s|
    ensures forall k :: 0 <= k < |s| ==> UpperWith(u, s)[k] == AsciiUpperChar(s[k])
    decreases |s|
  {
    if s != [] {
      assert s[0] in s;
      UpperAscii(u, s[1..]);
    }
  }

  /** A string is a key when it is already in normal form. */
  predicate IsKey(s: string) {
    forall c :: c in s ==> IsAscii(c) && c != ' ' && !IsAsciiLower(c)
  }

  /** `normalizar(texto)`: the key holds only ASCII characters, no ' ' and no lower-case letter. */
  function Normalize(u: Unicode, s: string): (key: string)
    ensures IsKey(key)
  {
    var t := RemoveSpaces(AsciiOnly(Decompose(u, s)));
    AsciiOnlyChars(Decompose(u, s));
    RemoveSpacesChars(AsciiOnly(Decompose(u, s)));
    UpperKey(u, t);
    UpperWith(u, t)
  }

  /** Upper-casing ASCII text without ' ' gives a key. */
  lemma UpperKey(u: Unicode, t: string)
    requires AllAscii(t) && ' ' !in t
    ensures IsKey(UpperWith(u, t))
  {
    UpperAscii(u, t);
    var r := UpperWith(u, t);
    assert forall c :: c in r ==> exists k :: 0 <= k < |t| && c == AsciiUpperChar(t[k]);
  }

  /** Normal forms are fixed points: a key normalizes to itself. */
  lemma NormalizeKey(u: Unicode, s: string)
    requires IsKey(s)
    ensures Normalize(u, s) == s
  {
    DecomposeAscii(u, s);
    AsciiOnlyAscii(s);
    RemoveSpacesNoSpace(s);
    UpperAscii(u, s);
    assert forall k :: 0 <= k < |s| ==> s[k] in s;
  }

  /** `normalizar(normalizar(x)) == normalizar(x)` */
  lemma NormalizeIdempotent(u: Unicode, s: string)
    ensures Normalize(u, Normalize(u, s)) == Normalize(u, s)
  {
    NormalizeKey(u, Normalize(u, s));
  }

  /** Normalization works character by character: it distributes over concatenation. */
  lemma NormalizeAppend(u: Unicode, a: string, b: string)
    ensures Normalize(u, a + b) == Normalize(u, a) + Normalize(u, b)
  {
    DecomposeAppend(u, a, b);
    AsciiOnlyAppend(Decompose(u, a), Decompose(u, b));
    RemoveSpacesAppend(AsciiOnly(Decompose(u, a)), AsciiOnly(Decompose(u, b)));
    UpperAppend(u, RemoveSpaces(AsciiOnly(Decompose(u, a))), RemoveSpaces(AsciiOnly(Decompose(u, b))));
  }

  /**
    An accented letter keeps only its upper-cased base letter: when NFKD
    splits it into an ASCII base and non-ASCII combining marks, the marks
    are dropped ('\U{E9}' becomes 'E').
   */
  lemma NormalizeAccented(u: Unicode, c: char, base: char, marks: string)
    requires u.decompose(c) == [base] + marks
    requires IsAscii(base) && base != ' '
    requires forall m :: m in marks ==> !IsAscii(m)
    ensures Normalize(u, [c]) == [AsciiUpperChar(base)]
  {
    assert Decompose(u, [c]) == [base] + marks;
    AsciiOnlyAppend([base], marks);
    AsciiOnlyNone(marks);
    assert AsciiOnly([base] + marks) == [base];
    assert RemoveSpaces([base]) == [base];
    assert AllAscii([base]);
    UpperAscii(u, [base]);
  }

  /** An ASCII character other than ' ' survives, upper-cased; ' ' disappears. */
  lemma NormalizeAsciiChar(u: Unicode, c: char)
    requires IsAscii(c)
    ensures Normalize(u, [c]) == if c == ' ' then [] else [AsciiUpperChar(c)]
  {
    assert AllAscii([c]);
    DecomposeAscii(u, [c]);
    AsciiOnlyAscii([c]);
    if c != ' ' {
      assert RemoveSpaces([c]) == [c];
      UpperAscii(u, [c]);
    } else {
      assert RemoveSpaces([c]) == [];
    }
  }

  /**
    Only the space character is removed: a tab (or any other ASCII
    whitespace) stays in the key.
   */
  lemma NormalizeKeepsTab(u: Unicode)
    ensures Normalize(u, "\t") == "\t"
  {
    NormalizeAsciiChar(u, '\t');
  }

  lemma {:induction false} AsciiOnlyNone(s: string)
    requires forall m :: m in s ==> !IsAscii(m)
    ensures AsciiOnly(s) == []
    decreases |s|
  {
    if s != [] {
      assert s[0] in s;
      assert forall m :: m in s[1..] ==> m in s;
      AsciiOnlyNone(s[1..]);
    }
  }

  lemma {:induction false} UpperAppend(u: Unicode, a: string, b: string)
    ensures UpperWith(u, a + b) == UpperWith(u, a) + UpperWith(u, b)
    decreases |a|
  {
    if a != [] {
      assert (a + b)[0] == a[0];
      assert (a + b)[1..] == a[1..] + b;
      UpperAppend(u, a[1..], b);
    } else {
      assert a + b == b;
    }
  }

  lemma {:induction false} DecomposeAppend(u: Unicode, a: string, b: string)
    ensures Decompose(u, a + b) == Decompose(u, a) + Decompose(u, b)
    decreases |a|
  {
    if a != [] {
      assert (a + b)[0] == a[0];
      assert (a + b)[1..] == a[1..] + b;
      DecomposeAppend(u, a[1..], b);
    } else {
      assert a + b == b;
    }
  }

  lemma {:induction false} AsciiOnlyAppend(a: string, b: string)
    ensures AsciiOnly(a + b) == AsciiOnly(a) + AsciiOnly(b)
    decreases |a|
  {
    if a != [] {
      assert (a + b)[0] == a[0];
      assert (a + b)[1..] == a[1..] + b;
      AsciiOnlyAppend(a[1..], b);
    } else {
      assert a + b == b;
    }
  }

  lemma {:induction false} RemoveSpacesAppend(a: string, b: string)
    ensures RemoveSpaces(a + b) == RemoveSpaces(a) + RemoveSpaces(b)
    decreases |a|
  {
    if a != [] {
      assert (a + b)[0] == a[0];
      assert (a + b)[1..] == a[1..] + b;
      RemoveSpacesAppend(a[1..], b);
    } else {
      assert a + b == b;
    }
  }
}
