/** The string operations the extension relies on: `String.prototype.trim`
    and the lower-casing used to recognise the `key` column. */
module Text {

  /** The code points `String.prototype.trim` removes: ECMAScript's
      WhiteSpace (tab, vertical tab, form feed, space, no-break space, byte
      order mark and the space separators) and LineTerminator characters. */
  predicate IsSpace(c: char) {
    c as int in SpaceCodes
  }

  const SpaceCodes: set<int> := {
    0x09, 0x0A, 0x0B, 0x0C, 0x0D, 0x20, 0xA0, 0x1680,
    0x2000, 0x2001, 0x2002, 0x2003, 0x2004, 0x2005, 0x2006, 0x2007, 0x2008, 0x2009, 0x200A,
    0x2028, 0x2029, 0x202F, 0x205F, 0x3000, 0xFEFF
  }

  /** Drops the leading white space. */
  function TrimStart(s: string): string
    decreases |s|
  {
    if |s| > 0 && IsSpace(s[0]) then TrimStart(s[1..]) else s
  }

  /** Drops the trailing white space. */
  function TrimEnd(s: string): string
    decreases |s|
  {
    if |s| > 0 && IsSpace(s[|s| - 1]) then TrimEnd(s[..|s| - 1]) else s
  }

  /** `s.trim()`: white space removed from both ends. */
  function Trim(s: string): string {
    TrimEnd(TrimStart(s))
  }

  /** What `TrimStart` leaves does not start with white space. */
  lemma {:induction false} TrimStartStops(s: string)
    ensures TrimStart(s) == [] || !IsSpace(TrimStart(s)[0])
    decreases |s|
  {
    if |s| > 0 && IsSpace(s[0]) {
      TrimStartStops(s[1..]);
    }
  }

  /** What `TrimEnd` leaves is a prefix that does not end with white space. */
  lemma {:induction false} TrimEndStops(s: string)
    ensures |TrimEnd(s)| <= |s| && TrimEnd(s) == s[..|TrimEnd(s)|]
    ensures TrimEnd(s) == [] || !IsSpace(TrimEnd(s)[|TrimEnd(s)| - 1])
    decreases |s|
  {
    if |s| > 0 && IsSpace(s[|s| - 1]) {
      TrimEndStops(s[..|s| - 1]);
    }
  }

  /** A trimmed string neither starts nor ends with white space. */
  lemma TrimStops(s: string)
    ensures Trim(s) == [] || (!IsSpace(Trim(s)[0]) && !IsSpace(Trim(s)[|Trim(s)| - 1]))
  {
    var t := TrimStart(s);
    TrimStartStops(s);
    TrimEndStops(t);
    if Trim(s) != [] {
      assert Trim(s)[0] == t[0];
    }
  }

  /** A string with no white space at either end is left as it is. */
  lemma TrimmedIsFixed(s: string)
    requires s == [] || (!IsSpace(s[0]) && !IsSpace(s[|s| - 1]))
    ensures Trim(s) == s
  {
    assert TrimStart(s) == s;
    assert TrimEnd(s) == s;
  }

  /** Trimming twice is trimming once. */
  lemma TrimIdempotent(s: string)
    ensures Trim(Trim(s)) == Trim(s)
  {
    TrimStops(s);
    TrimmedIsFixed(Trim(s));
  }

  /** `TrimStart` drops a prefix made of white space, and nothing else. */
  lemma {:induction false} TrimStartSplit(s: string) returns (i: nat)
    ensures i <= |s| && TrimStart(s) == s[i..]
    ensures forall m :: 0 <= m < i ==> IsSpace(s[m])
    decreases |s|
  {
    if |s| > 0 && IsSpace(s[0]) {
      var k := TrimStartSplit(s[1..]);
      i := k + 1;
      assert s[1..][k..] == s[i..];
      forall m | 0 < m < i ensures IsSpace(s[m]) {
        assert s[m] == s[1..][m - 1];
      }
    } else {
      i := 0;
    }
  }

  /** `TrimEnd` drops a suffix made of white space, and nothing else. */
  lemma {:induction false} TrimEndSplit(s: string) returns (j: nat)
    ensures j <= |s| && TrimEnd(s) == s[..j]
    ensures forall m :: j <= m < |s| ==> IsSpace(s[m])
    decreases |s|
  {
    if |s| > 0 && IsSpace(s[|s| - 1]) {
      var p := s[..|s| - 1];
      j := TrimEndSplit(p);
      assert p[..j] == s[..j];
      forall m | j <= m < |s| - 1 ensures IsSpace(s[m]) {
        assert s[m] == p[m];
      }
    } else {
      j := |s|;
    }
  }

  /** Trimming keeps a contiguous part of the string and removes only white
      space before and after it. */
  lemma TrimRemovesOnlySpace(s: string)
    ensures exists i, j ::
              && 0 <= i <= j <= |s| && Trim(s) == s[i..j]
              && (forall m :: 0 <= m < i ==> IsSpace(s[m]))
              && (forall m :: j <= m < |s| ==> IsSpace(s[m]))
  {
    var i := TrimStartSplit(s);
    var t := s[i..];
    var k := TrimEndSplit(t);
    assert t[..k] == s[i..i + k];
    forall m | i + k <= m < |s| ensures IsSpace(s[m]) {
      assert s[m] == t[m - i];
    }
  }

  /** ASCII part of `String.prototype.toLowerCase` on one character. */
  function LowerChar(c: char): char {
    if 'A' <= c <= 'Z' then (c as int + 32) as char else c
  }

  /** `s.toLowerCase()` restricted to the ASCII letters. */
  function AsciiLower(s: string): (r: string)
    ensures |r| == |s|
  {
    seq(|s|, i requires 0 <= i < |s| => LowerChar(s[i]))
  }

  /** `header.toLowerCase() === 'key'`. */
  predicate IsKeyHeader(header: string) {
    AsciiLower(header) == "key"
  }

  /** The headers recognised as the key column are exactly the eight
      spellings of `key` in upper and lower case. */
  lemma KeyHeaderSpellings(header: string)
    ensures IsKeyHeader(header) <==>
      && |header| == 3
      && (header[0] == 'k' || header[0] == 'K')
      && (header[1] == 'e' || header[1] == 'E')
      && (header[2] == 'y' || header[2] == 'Y')
  {
    if |header| == 3 {
      var l := AsciiLower(header);
      assert l == [LowerChar(header[0]), LowerChar(header[1]), LowerChar(header[2])];
    }
  }
}
