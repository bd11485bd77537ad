/**
 * Derivation paths of the keyring's accounts.
 *
 * Account `n` lives at `m/44'/60'/n'/0/0`: BIP-44 purpose 44, coin type 60
 * (Ethereum in SLIP-0044), account `n`, external chain 0, first address 0.
 * A primed component is hardened, i.e. offset by 2^31 (BIP-32, "Child key
 * derivation"). The keyring writes that path as text and has it parsed into
 * a list of child indices; this module gives both the closed form of that
 * list and a parser for the BIP-32 notation, and proves that they agree.
 */
module Bip32 {
  import opened Wrappers

  /** Offset that marks a hardened child index. */
  const HARDENED: nat := 0x8000_0000

  /** A derivation path as the list of child indices the device expects. */
  type AddressNList = seq<nat>

  /**
   * The index list of account `n` (BIP-44): hardened purpose 44, hardened
   * coin type 60, hardened account `n`, then chain 0 and address 0 unhardened.
   */
  function AddressNListForAccountIndex(n: nat): (path: AddressNList)
    ensures |path| == 5
    ensures forall k :: 0 <= k < 5 ==> (path[k] >= HARDENED <==> k < 3)
    ensures path[0] - HARDENED == 44 && path[1] - HARDENED == 60 && path[2] - HARDENED == n
    ensures path[3] == 0 && path[4] == 0
  {
    [44 + HARDENED, 60 + HARDENED, n + HARDENED, 0, 0]
  }

  /** The path text the keyring builds for account `n`. */
  function AccountPath(n: nat): string
  {
    "m/44'/60'/" + NatToDecimal(n) + "'/0/0"
  }

  // ---------------------------------------------------------------------
  // Decimal numerals

  predicate IsDigit(c: char) {
    '0' <= c <= '9'
  }

  predicate AllDigits(s: string) {
    forall i :: 0 <= i < |s| ==> IsDigit(s[i])
  }

  /** The shortest decimal numeral of `n`, as a template literal prints it. */
  function NatToDecimal(n: nat): (s: string)
    ensures s != [] && AllDigits(s)
    decreases n
  {
    var last := [('0' as int + n % 10) as char];
    if n < 10 then last else NatToDecimal(n / 10) + last
  }

  /** The value of a string of decimal digits (most significant first). */
  function DecimalValue(s: string): nat
    requires AllDigits(s)
    decreases |s|
  {
    if s == [] then 0
    else 10 * DecimalValue(s[..|s| - 1]) + (s[|s| - 1] as int - '0' as int)
  }

  function ParseDecimal(s: string): Option<nat>
  {
    if s != [] && AllDigits(s) then Some(DecimalValue(s)) else None
  }

  lemma {:induction false} DecimalRoundTrip(n: nat)
    ensures ParseDecimal(NatToDecimal(n)) == Some(n)
  {
    var s := NatToDecimal(n);
    var last := [('0' as int + n % 10) as char];
    if n < 10 {
      assert s == last && s[..0] == [];
    } else {
      DecimalRoundTrip(n / 10);
      assert s == NatToDecimal(n / 10) + last;
      assert s[..|s| - 1] == NatToDecimal(n / 10);
    }
    assert s[|s| - 1] == last[0];
    assert last[0] as int - '0' as int == n % 10;
    assert DecimalValue(s) == 10 * DecimalValue(s[..|s| - 1]) + n % 10;
    assert DecimalValue(s) == n;
  }

  // ---------------------------------------------------------------------
  // Splitting on a separator, as String.prototype.split does for one character

  function Split(s: string, sep: char): (parts: seq<string>)
    ensures |parts| > 0
    decreases |s|
  {
    if s == [] then [[]]
    else
      var rest := Split(s[1..], sep);
      if s[0] == sep then [[]] + rest else [[s[0]] + rest[0]] + rest[1..]
  }

  function Join(parts: seq<string>, sep: char): string
    requires |parts| > 0
  {
    if |parts| == 1 then parts[0] else parts[0] + [sep] + Join(parts[1..], sep)
  }

  lemma {:induction false} SplitWithoutSeparator(a: string, sep: char)
    requires sep !in a
    ensures Split(a, sep) == [a]
  {
    if a != [] {
      SplitWithoutSeparator(a[1..], sep);
      assert [a[0]] + a[1..] == a;
    }
  }

  lemma {:induction false} SplitAtSeparator(a: string, sep: char, b: string)
    requires sep !in a
    ensures Split(a + [sep] + b, sep) == [a] + Split(b, sep)
  {
    var s := a + [sep] + b;
    if a == [] {
      assert s[1..] == b;
    } else {
      SplitAtSeparator(a[1..], sep, b);
      assert s[1..] == a[1..] + [sep] + b;
      assert [a[0]] + a[1..] == a;
    }
  }

  lemma {:induction false} SplitJoin(parts: seq<string>, sep: char)
    requires |parts| > 0
    requires forall i :: 0 <= i < |parts| ==> sep !in parts[i]
    ensures Split(Join(parts, sep), sep) == parts
  {
    if |parts| == 1 {
      SplitWithoutSeparator(parts[0], sep);
    } else {
      SplitJoin(parts[1..], sep);
      SplitAtSeparator(parts[0], sep, Join(parts[1..], sep));
      assert [parts[0]] + parts[1..] == parts;
    }
  }

  // ---------------------------------------------------------------------
  // BIP-32 path notation: "m", then "/"-separated decimal child indices,
  // each below 2^31, a trailing "'" marking a hardened one

  function ParseSegment(segment: string): Option<nat>
  {
    var hardened := |segment| > 0 && segment[|segment| - 1] == '\'';
    var digits := if hardened then segment[..|segment| - 1] else segment;
    match ParseDecimal(digits)
    case None => None
    case Some(i) =>
      if i >= HARDENED then None
      else Some(if hardened then i + HARDENED else i)
  }

  function ParseSegments(segments: seq<string>): Option<AddressNList>
  {
    if segments == [] then Some([])
    else
      match ParseSegment(segments[0])
      case None => None
      case Some(i) =>
        match ParseSegments(segments[1..])
        case None => None
        case Some(rest) => Some([i] + rest)
  }

  function ParsePath(path: string): Option<AddressNList>
  {
    var segments := Split(path, '/');
    if segments[0] == "m" then ParseSegments(segments[1..]) else None
  }

  lemma LiteralSegments()
    ensures ParseSegment("44'") == Some(44 + HARDENED)
    ensures ParseSegment("60'") == Some(60 + HARDENED)
    ensures ParseSegment("0") == Some(0)
  {
    assert "44'"[..2] == "44" && "44"[..1] == "4" && "4"[..0] == [];
    assert "60'"[..2] == "60" && "60"[..1] == "6" && "6"[..0] == [];
    assert "0"[..0] == [];
  }

  lemma AccountSegment(n: nat)
    ensures n < HARDENED ==> ParseSegment(NatToDecimal(n) + "'") == Some(n + HARDENED)
    ensures n >= HARDENED ==> ParseSegment(NatToDecimal(n) + "'") == None
  {
    var d := NatToDecimal(n);
    DecimalRoundTrip(n);
    assert (d + "'")[..|d|] == d;
  }

  lemma PathSplits(n: nat)
    ensures Split(AccountPath(n), '/') == ["m", "44'", "60'", NatToDecimal(n) + "'", "0", "0"]
  {
    var d := NatToDecimal(n);
    var parts := ["m", "44'", "60'", d + "'", "0", "0"];
    assert Join(parts[4..], '/') == "0/0";
    assert Join(parts[3..], '/') == d + "'/0/0";
    assert Join(parts[2..], '/') == "60'/" + d + "'/0/0";
    assert Join(parts[1..], '/') == "44'/60'/" + d + "'/0/0";
    assert AccountPath(n) == Join(parts, '/');
    SplitJoin(parts, '/');
  }

  /** A path parses exactly when every segment does, component by component. */
  lemma {:induction false} ParseSegmentsEach(segments: seq<string>)
    ensures ParseSegments(segments).Some? <==>
      forall i :: 0 <= i < |segments| ==> ParseSegment(segments[i]).Some?
    ensures ParseSegments(segments).Some? ==>
      |ParseSegments(segments).value| == |segments| &&
      forall i :: 0 <= i < |segments| ==> ParseSegments(segments).value[i] == ParseSegment(segments[i]).value
  {
    if segments != [] {
      ParseSegmentsEach(segments[1..]);
      assert forall i :: 1 <= i < |segments| ==> segments[i] == segments[1..][i - 1];
    }
  }

  lemma ParseFiveSegments(a: string, b: string, c: string, d: string, e: string)
    ensures ParseSegments([a, b, c, d, e]) ==
      if ParseSegment(a).Some? && ParseSegment(b).Some? && ParseSegment(c).Some?
         && ParseSegment(d).Some? && ParseSegment(e).Some?
      then Some([ParseSegment(a).value, ParseSegment(b).value, ParseSegment(c).value,
                 ParseSegment(d).value, ParseSegment(e).value])
      else None
  {
    var s := [a, b, c, d, e];
    ParseSegmentsEach(s);
    assert s[0] == a && s[1] == b && s[2] == c && s[3] == d && s[4] == e;
    if ParseSegments(s).Some? {
      var v := ParseSegments(s).value;
      assert v[0] == ParseSegment(s[0]).value && v[1] == ParseSegment(s[1]).value;
      assert v[2] == ParseSegment(s[2]).value && v[3] == ParseSegment(s[3]).value;
      assert v[4] == ParseSegment(s[4]).value;
      assert ParseSegment(a).Some? && ParseSegment(b).Some? && ParseSegment(c).Some?;
      assert ParseSegment(d).Some? && ParseSegment(e).Some?;
      assert |v| == 5;
      assert v == [v[0], v[1], v[2], v[3], v[4]];
    } else {
      var i :| 0 <= i < 5 && ParseSegment(s[i]).None?;
    }
  }

  /**
   * Parsing the path text of account `n` yields the closed-form index list
   * exactly when `n` is a valid (non-hardened) child number; for larger `n`
   * the account component is not a BIP-32 index and the text is rejected.
   */
  lemma AccountPathParses(n: nat)
    ensures n < HARDENED ==> ParsePath(AccountPath(n)) == Some(AddressNListForAccountIndex(n))
    ensures n >= HARDENED ==> ParsePath(AccountPath(n)) == None
  {
    var account := NatToDecimal(n) + "'";
    var segments := Split(AccountPath(n), '/');
    PathSplits(n);
    assert segments[0] == "m" && segments[1..] == ["44'", "60'", account, "0", "0"];
    LiteralSegments();
    AccountSegment(n);
    ParseFiveSegments("44'", "60'", account, "0", "0");
  }

  /** Two accounts share every path component but the account one, which tells them apart. */
  lemma AccountComponentOnly(m: nat, n: nat)
    ensures |AddressNListForAccountIndex(m)| == |AddressNListForAccountIndex(n)| == 5
    ensures forall k :: 0 <= k < 5 && k != 2 ==>
      AddressNListForAccountIndex(m)[k] == AddressNListForAccountIndex(n)[k]
    ensures AddressNListForAccountIndex(m) == AddressNListForAccountIndex(n) <==> m == n
  {
    if AddressNListForAccountIndex(m) == AddressNListForAccountIndex(n) {
      assert AddressNListForAccountIndex(m)[2] == AddressNListForAccountIndex(n)[2];
    }
  }
}
