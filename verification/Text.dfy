/** Strings: ASCII case, searching, trimming, splitting. */
module Text {

  function UpperChar(c: char): char {
    if 'a' <= c <= 'z' then (c as int - 32) as char else c
  }

  /** ASCII upper case. */
  function Upper(s: string): (r: string)
    ensures |r| == |s| && forall k :: 0 <= k < |s| ==> r[k] == UpperChar(s[k])
  {
    if s == "" then "" else [UpperChar(s[0])] + Upper(s[1..])
  }

  /** Position of the first `c`, or the length when there is none. */
  function Find(s: string, c: char): (k: nat)
    ensures k <= |s| && c !in s[..k] && (k < |s| ==> s[k] == c) && (k < |s| <==> c in s)
  {
    if s == "" then 0
    else if s[0] == c then 0
    else
      assert s == [s[0]] + s[1..];
      1 + Find(s[1..], c)
  }

  lemma UpperOfUpper(s: string)
    ensures Upper(Upper(s)) == Upper(s)
  {
  }

  lemma UpperSlices(s: string, k: nat)
    requires k <= |s|
    ensures Upper(s[..k]) == Upper(s)[..k] && Upper(s[k..]) == Upper(s)[k..]
  {
  }

  /** The characters Unicode calls white space. */
  predicate IsWhitespace(c: char) {
    || '\U{0009}' <= c <= '\U{000D}' || c == ' ' || c == '\U{0085}' || c == '\U{00A0}' || c == '\U{1680}'
    || '\U{2000}' <= c <= '\U{200A}' || c == '\U{2028}' || c == '\U{2029}' || c == '\U{202F}'
    || c == '\U{205F}' || c == '\U{3000}'
  }

  function TrimStart(s: string): string {
    if s != "" && IsWhitespace(s[0]) then TrimStart(s[1..]) else s
  }

  function TrimEnd(s: string): string {
    if s != "" && IsWhitespace(s[|s| - 1]) then TrimEnd(s[..|s| - 1]) else s
  }

  function Trim(s: string): string {
    TrimEnd(TrimStart(s))
  }

  /** The pieces of `s` between the separators; one piece more than there are separators. */
  function Split(s: string, separator: char): seq<string> {
    var k := Find(s, separator);
    if k == |s| then [s] else [s[..k]] + Split(s[k + 1..], separator)
  }

  // ---- what trimming and splitting give ----

  /** White space only, outside `s[a..b]`. */
  predicate PaddedAround(s: string, a: int, b: int) {
    && 0 <= a <= b <= |s|
    && (forall j :: 0 <= j < a ==> IsWhitespace(s[j])) && (forall j :: b <= j < |s| ==> IsWhitespace(s[j]))
  }

  predicate IsTrimmed(s: string) {
    s != "" && !IsWhitespace(s[0]) && !IsWhitespace(s[|s| - 1])
  }

  lemma {:induction false} TrimStartIs(s: string) returns (a: nat)
    ensures a <= |s| && TrimStart(s) == s[a..] && (forall j :: 0 <= j < a ==> IsWhitespace(s[j]))
    ensures a < |s| ==> !IsWhitespace(s[a])
  {
    if s != "" && IsWhitespace(s[0]) {
      var b := TrimStartIs(s[1..]);
      a := b + 1;
      assert forall j :: 1 <= j < a ==> s[j] == s[1..][j - 1];
    } else {
      a := 0;
    }
  }

  lemma {:induction false} TrimEndIs(s: string) returns (b: nat)
    ensures b <= |s| && TrimEnd(s) == s[..b] && (forall j :: b <= j < |s| ==> IsWhitespace(s[j]))
    ensures b > 0 ==> !IsWhitespace(s[b - 1])
  {
    if s != "" && IsWhitespace(s[|s| - 1]) {
      b := TrimEndIs(s[..|s| - 1]);
    } else {
      b := |s|;
    }
  }

  /** Trimming to something is finding it with white space only around it. */
  lemma TrimIs(s: string, t: string)
    requires IsTrimmed(t)
    ensures Trim(s) == t <==> exists a, b :: PaddedAround(s, a, b) && s[a..b] == t
  {
    hide IsWhitespace, TrimStart, TrimEnd;
    var a := TrimStartIs(s);
    var c := TrimEndIs(s[a..]);
    assert forall j :: a + c <= j < |s| ==> s[j] == s[a..][j - a];
    assert s[a..][..c] == s[a..a + c];
    assert PaddedAround(s, a, a + c);
    forall x, y | PaddedAround(s, x, y) && s[x..y] == t ensures Trim(s) == t {
      assert s[x] == t[0] && s[y - 1] == t[|t| - 1];
      assert x == a;
      assert a + c > 0 && s[a + c - 1] == s[a..][c - 1];
    }
  }

  /** `s[c..d]` lies between two separators or ends of `s`, with none inside. */
  predicate IsPiece(s: string, separator: char, c: int, d: int) {
    && 0 <= c <= d <= |s| && (c == 0 || s[c - 1] == separator) && (d == |s| || s[d] == separator)
    && forall j :: c <= j < d ==> s[j] != separator
  }

  ghost predicate HasPiece(s: string, separator: char, p: string) {
    exists c, d :: IsPiece(s, separator, c, d) && s[c..d] == p
  }

  /** Splitting gives exactly the pieces. */
  lemma {:induction false} SplitIs(s: string, separator: char, p: string)
    ensures p in Split(s, separator) <==> HasPiece(s, separator, p)
  {
    hide Find, HasPiece;
    var k := Find(s, separator);
    forall j | 0 <= j < k ensures s[j] != separator {
      assert s[j] in s[..k];
    }
    FirstPiece(s, separator, k, p);
    if k == |s| {
      assert s[..k] == s && Split(s, separator) == [s];
    } else {
      SplitIs(s[k + 1..], separator, p);
      assert Split(s, separator) == [s[..k]] + Split(s[k + 1..], separator);
    }
  }

  lemma FirstPiece(s: string, separator: char, k: nat, p: string)
    requires k <= |s| && (k < |s| ==> s[k] == separator) && forall j :: 0 <= j < k ==> s[j] != separator
    ensures HasPiece(s, separator, p) <==> s[..k] == p || (k < |s| && HasPiece(s[k + 1..], separator, p))
  {
    if HasPiece(s, separator, p) {
      var c, d :| IsPiece(s, separator, c, d) && s[c..d] == p;
      if c == 0 {
        assert d == k;
      } else {
        assert c > k;
        PieceShift(s, separator, k, c, d);
      }
    }
    if s[..k] == p {
      assert IsPiece(s, separator, 0, k) && s[0..k] == p;
    }
    if k < |s| && HasPiece(s[k + 1..], separator, p) {
      var c, d :| IsPiece(s[k + 1..], separator, c, d) && s[k + 1..][c..d] == p;
      PieceShift(s, separator, k, c + k + 1, d + k + 1);
    }
  }

  /** Pieces after a separator are pieces of what follows it. */
  lemma PieceShift(s: string, separator: char, k: nat, c: int, d: int)
    requires k < |s| && s[k] == separator && k < c <= d <= |s|
    ensures var rest := s[k + 1..];
            && (IsPiece(s, separator, c, d) <==> IsPiece(rest, separator, c - k - 1, d - k - 1))
            && rest[c - k - 1..d - k - 1] == s[c..d]
  {
    var rest := s[k + 1..];
    assert forall j :: k < j < |s| ==> s[j] == rest[j - k - 1];
    assert forall j :: 0 <= j < |rest| ==> rest[j] == s[j + k + 1];
  }
}
