/** Asset names: `CHAIN<sep>SYMBOL`, where the separator tells what kind of asset it is. */
module Assets {
  import opened Text

  const NATIVE_RUNE := "THOR.RUNE"
  const RUNE_67C := "BNB.RUNE-67C"
  const RUNE_B1A := "BNB.RUNE-B1A"

  datatype CoinType = Rune | Native | Synth | Trade | Derived | Secure | Unknown

  predicate IsRune(asset: string) {
    asset == NATIVE_RUNE || asset == RUNE_67C || asset == RUNE_B1A
  }

  function CoinTypeOf(asset: string): CoinType {
    if IsRune(asset) then Rune
    else if asset == "THOR.TCY" || asset == "THOR.RUJI" || asset == "THOR.NAMI" then Native
    else
      var upper := Upper(asset);
      if "X/" <= upper then Native
      else if '/' in asset then Synth
      else if "THOR." <= upper then Derived
      else if '.' in asset then Native
      else if '~' in asset then Trade
      else if '-' in asset then Secure
      else Unknown
  }

  /** Upper-casing neither makes nor removes a character that is not a letter. */
  lemma UpperKeeps(s: string, c: char)
    requires c == '/' || c == '~' || c == '.'
    ensures c in Upper(s) <==> c in s
    ensures Find(Upper(s), c) == Find(s, c)
  {
    hide Upper, Find, UpperChar;
    var u, k := Upper(s), Find(s, c);
    forall i | 0 <= i < |s| ensures u[i] == c <==> s[i] == c {
      UpperCharKeeps(s[i], c);
    }
    forall i | 0 <= i < k ensures s[i] != c {
      assert s[i] in s[..k];
    }
    FindIs(u, c, k);
  }

  lemma UpperCharKeeps(x: char, c: char)
    requires c == '/' || c == '~' || c == '.'
    ensures UpperChar(x) == c <==> x == c
  {
  }

  /** `Find` is the only position that is not preceded by `c` and holds `c` or is the end. */
  lemma FindIs(s: string, c: char, k: nat)
    requires k <= |s| && (forall i :: 0 <= i < k ==> s[i] != c) && (k < |s| ==> s[k] == c)
    ensures Find(s, c) == k && (c in s <==> k < |s|)
  {
    hide Find;
    var e := Find(s, c);
    forall i | 0 <= i < e ensures s[i] != c {
      assert s[i] in s[..e];
    }
  }

  // ---- parsing and printing ----

  datatype Asset = Asset(chain: string, ticker: string, symbol: string, synth: bool, trade: bool)

  function SeparatorOf(s: string): char {
    if '/' in s then '/' else if '~' in s then '~' else '.'
  }

  function Parse(s: string): Asset {
    var sep := SeparatorOf(s);
    var k := Find(s, sep);
    var chain := if k < |s| then Upper(s[..k]) else "THOR";
    var symbol := Upper(if k < |s| then s[k + 1..] else s);
    Named(chain, symbol, sep)
  }

  /** The ticker is the symbol up to its first dash. */
  function Named(chain: string, symbol: string, sep: char): Asset {
    Asset(chain, symbol[..Find(symbol, '-')], symbol, sep == '/', sep == '~')
  }

  function Print(a: Asset): string {
    a.chain + [if a.synth then '/' else if a.trade then '~' else '.'] + a.symbol
  }

  predicate HasSeparator(s: string) {
    '/' in s || '~' in s || '.' in s
  }

  /** The name an asset is printed under: upper case, with the `THOR` chain spelled out. */
  function Canonical(s: string): string {
    if HasSeparator(s) then Upper(s) else "THOR." + Upper(s)
  }

  lemma PrintParse(s: string)
    ensures Print(Parse(s)) == Canonical(s)
  {
    hide Upper, Find;
    var sep := SeparatorOf(s);
    var k := Find(s, sep);
    if k < |s| {
      UpperSlices(s, k);
      UpperSlices(s, k + 1);
      var u := Upper(s);
      assert u == u[..k] + [u[k]] + u[k + 1..];
      assert u[k] == sep;
      assert Print(Parse(s)) == u[..k] + [sep] + u[k + 1..];
    } else {
      assert !HasSeparator(s);
      assert Print(Parse(s)) == "THOR" + ['.'] + Upper(s);
      assert "THOR" + ['.'] == "THOR.";
    }
  }

  lemma UpperKeepsSeparator(s: string)
    requires HasSeparator(s)
    ensures var sep := SeparatorOf(s);
            SeparatorOf(Upper(s)) == sep && Find(Upper(s), sep) == Find(s, sep) < |s|
  {
    hide Upper, Find;
    UpperKeeps(s, '/');
    UpperKeeps(s, '~');
    UpperKeeps(s, '.');
  }

  lemma ParseOfUpper(s: string)
    requires HasSeparator(s)
    ensures Parse(Upper(s)) == Parse(s)
  {
    hide Upper, Find, UpperChar, SeparatorOf, Named;
    var sep, u := SeparatorOf(s), Upper(s);
    UpperKeepsSeparator(s);
    var k := Find(s, sep);
    UpperSlices(s, k);
    UpperSlices(s, k + 1);
    UpperOfUpper(s[..k]);
    UpperOfUpper(s[k + 1..]);
  }

  /** Parsing a printed name gives the same asset back, whatever the string was. */
  lemma ParsePrintParse(s: string)
    ensures Parse(Print(Parse(s))) == Parse(s)
  {
    PrintParse(s);
    if HasSeparator(s) {
      ParseOfUpper(s);
    } else {
      ParseOfBare(s);
    }
  }

  lemma ParseOfBare(s: string)
    requires !HasSeparator(s)
    ensures Parse("THOR." + Upper(s)) == Parse(s)
  {
    hide Upper;
    var c := "THOR." + Upper(s);
    UpperKeeps(s, '/');
    UpperKeeps(s, '~');
    assert SeparatorOf(c) == '.';
    DotAfterThor(Upper(s));
    assert c[..4] == "THOR" && c[5..] == Upper(s);
    assert Upper("THOR") == "THOR" by { UpperThor(); }
    UpperOfUpper(s);
  }

  lemma UpperThor()
    ensures Upper("THOR") == "THOR"
  {
  }

  lemma DotAfterThor(s: string)
    ensures Find("THOR." + s, '.') == 4
  {
    hide Find;
    var c := "THOR." + s;
    assert c[4] == '.';
  }

  // ---- the pool an asset belongs to ----

  predicate IsClaim(c: char) {
    c == '/' || c == '~'
  }

  /** Replace the first `/` or `~` by a dot. */
  function ReplaceFirstClaim(s: string): string {
    if s == "" then ""
    else if IsClaim(s[0]) then "." + s[1..]
    else [s[0]] + ReplaceFirstClaim(s[1..])
  }

  function PoolOfAsset(asset: string): string {
    ReplaceFirstClaim(Print(Parse(asset)))
  }

  function ClaimCount(s: string): nat {
    if s == "" then 0 else (if IsClaim(s[0]) then 1 else 0) + ClaimCount(s[1..])
  }

  lemma {:induction false} ReplaceFirstClaimEffect(s: string)
    ensures var r := ReplaceFirstClaim(s);
            |r| == |s| && ClaimCount(r) == (if ClaimCount(s) == 0 then 0 else ClaimCount(s) - 1)
    ensures ClaimCount(s) == 0 ==> ReplaceFirstClaim(s) == s
    ensures ClaimCount(s) > 0 ==> '.' in ReplaceFirstClaim(s)
    ensures '.' in s ==> '.' in ReplaceFirstClaim(s)
    ensures Upper(s) == s ==> Upper(ReplaceFirstClaim(s)) == ReplaceFirstClaim(s)
  {
    var r := ReplaceFirstClaim(s);
    if s != "" {
      if IsClaim(s[0]) {
        assert r[0] == '.' && r[1..] == s[1..];
      } else {
        ReplaceFirstClaimEffect(s[1..]);
        assert r[0] == s[0] && r[1..] == ReplaceFirstClaim(s[1..]);
        UpperSlices(s, 1);
        UpperSlices(r, 1);
        assert s == [s[0]] + s[1..] && r == [r[0]] + r[1..];
      }
    }
  }

  lemma {:induction false} ClaimCountOfUpper(s: string)
    ensures ClaimCount(Upper(s)) == ClaimCount(s)
    ensures ClaimCount(s) == 0 <==> '/' !in s && '~' !in s
  {
    if s != "" {
      ClaimCountOfUpper(s[1..]);
      UpperSlices(s, 1);
      assert s == [s[0]] + s[1..];
    }
  }

  lemma ClaimCountOfCanonical(s: string)
    ensures ClaimCount(Canonical(s)) == ClaimCount(s)
    ensures HasSeparator(Canonical(s)) && Upper(Canonical(s)) == Canonical(s)
  {
    hide Upper, Find, ClaimCount;
    ClaimCountOfUpper(s);
    UpperKeeps(s, '/');
    UpperKeeps(s, '~');
    UpperKeeps(s, '.');
    UpperOfUpper(s);
    if !HasSeparator(s) {
      BareName(s);
    }
  }

  lemma BareName(s: string)
    requires !HasSeparator(s)
    ensures var c := "THOR." + Upper(s); ClaimCount(c) == 0 && '.' in c && Upper(c) == c
  {
    hide Upper, Find, ClaimCount;
    var c := "THOR." + Upper(s);
    assert c[4] == '.';
    UpperKeeps(s, '/');
    UpperKeeps(s, '~');
    ClaimCountOfUpper(c);
    UpperOfUpper(s);
    UpperThorDot();
    assert c[..5] == "THOR." && c[5..] == Upper(s);
    UpperSlices(c, 5);
    assert Upper(c) == Upper(c)[..5] + Upper(c)[5..];
  }

  lemma UpperThorDot()
    ensures Upper("THOR.") == "THOR."
  {
  }

  /** Naming the pool of a pool changes nothing exactly when the name has at most one of `/`, `~`. */
  lemma PoolOfAssetIdempotent(s: string)
    ensures PoolOfAsset(PoolOfAsset(s)) == PoolOfAsset(s) <==> ClaimCount(s) <= 1
  {
    PrintParse(s);
    ClaimCountOfCanonical(s);
    var c := Canonical(s);
    ReplaceFirstClaimEffect(c);
    var p := PoolOfAsset(s);
    ClaimCountOfUpper(c);
    PrintParse(p);
    ClaimCountOfUpper(p);
    assert HasSeparator(p);
    assert Canonical(p) == p;
    ReplaceFirstClaimEffect(p);
  }

  // ---- what names mean ----

  /** Starts with these characters, lower case or upper. */
  predicate StartsWith(s: string, prefix: string) {
    |prefix| <= |s| && forall k :: 0 <= k < |prefix| ==> UpperChar(s[k]) == prefix[k]
  }

  lemma PrefixOfUpper(s: string, prefix: string)
    ensures prefix <= Upper(s) <==> StartsWith(s, prefix)
  {
  }

  predicate Listed(asset: string) {
    asset in {"THOR.TCY", "THOR.RUJI", "THOR.NAMI"}
  }

  /** Which names are which kind of coin. */
  lemma CoinTypes(asset: string)
    ensures var kind := CoinTypeOf(asset);
            && (kind.Rune? <==> asset in {"THOR.RUNE", "BNB.RUNE-67C", "BNB.RUNE-B1A"})
            && (kind.Synth? <==> '/' in asset && !StartsWith(asset, "X/"))
            && (kind.Trade? <==> '~' in asset && '/' !in asset && '.' !in asset)
            && (kind.Secure? <==> '-' in asset && '/' !in asset && '.' !in asset && '~' !in asset)
            && (kind.Unknown? <==> '/' !in asset && '.' !in asset && '~' !in asset && '-' !in asset)
            && (kind.Derived? <==> StartsWith(asset, "THOR.") && '/' !in asset && !Listed(asset) && !kind.Rune?)
            && (kind.Native? <==>
                  StartsWith(asset, "X/") || Listed(asset)
                  || ('.' in asset && '/' !in asset && !StartsWith(asset, "THOR.") && !kind.Rune?))
  {
    hide Upper;
    PrefixOfUpper(asset, "X/");
    PrefixOfUpper(asset, "THOR.");
    if Listed(asset) || IsRune(asset) {
      NoSlashInListed(asset);
    }
    if StartsWith(asset, "X/") {
      assert asset[1] == '/';
    }
    if StartsWith(asset, "THOR.") {
      assert asset[4] == '.';
    }
    hide StartsWith;
  }

  lemma NoSlashInListed(asset: string)
    requires Listed(asset) || IsRune(asset)
    ensures '/' !in asset && '.' in asset
  {
    assert asset[3] == '.' || asset[4] == '.';
  }

  /** The parts of a parsed name. */
  lemma ParseShape(s: string)
    ensures var a := Parse(s);
            && (a.synth <==> '/' in s) && (a.trade <==> '~' in s && '/' !in s)
            && '-' !in a.ticker && a.ticker <= a.symbol && (a.ticker < a.symbol ==> a.symbol[|a.ticker|] == '-')
  {
    hide Upper, Find;
  }

  /** The pool of a name: upper case, its first `/` or `~` made a dot. */
  lemma PoolOfName(s: string, k: nat)
    requires k < |s| && IsClaim(s[k]) && forall j :: 0 <= j < k ==> !IsClaim(s[j])
    ensures PoolOfAsset(s) == Upper(s[..k]) + "." + Upper(s[k + 1..])
  {
    hide Upper, Find, ReplaceFirstClaim;
    assert s[k] in s;
    PrintParse(s);
    var u := Upper(s);
    forall j | 0 <= j < |s| ensures IsClaim(u[j]) <==> IsClaim(s[j]) {
      UpperCharKeeps(s[j], '/');
      UpperCharKeeps(s[j], '~');
    }
    ReplaceAt(u, k);
    UpperSlices(s, k);
    UpperSlices(s, k + 1);
  }

  lemma {:induction false} ReplaceAt(s: string, k: nat)
    requires k < |s| && IsClaim(s[k]) && forall j :: 0 <= j < k ==> !IsClaim(s[j])
    ensures ReplaceFirstClaim(s) == s[..k] + "." + s[k + 1..]
  {
    if k > 0 {
      ReplaceAt(s[1..], k - 1);
      assert s[..k] == [s[0]] + s[1..][..k - 1];
    }
  }

  lemma {:induction false} PoolOfPlainName(s: string)
    requires forall j :: 0 <= j < |s| ==> !IsClaim(s[j])
    ensures PoolOfAsset(s) == if '.' in s then Upper(s) else "THOR." + Upper(s)
  {
    hide Upper, ReplaceFirstClaim;
    PrintParse(s);
    ClaimCountOfCanonical(s);
    NoClaims(s);
    ReplaceFirstClaimEffect(Canonical(s));
  }

  lemma {:induction false} NoClaims(s: string)
    requires forall j :: 0 <= j < |s| ==> !IsClaim(s[j])
    ensures ClaimCount(s) == 0 && '/' !in s && '~' !in s
  {
    if s != "" {
      NoClaims(s[1..]);
      assert s == [s[0]] + s[1..];
    }
  }
}
