/**
 * The security network key: the `NetworkKey` option is a comma-separated list of sixteen
 * hexadecimal bytes. The driver splits it, drops empty pieces, and converts each piece with
 * `sscanf("%x")` after trimming it; a wrong count or an unconvertible piece is fatal.
 */
module NetworkKey {
  import opened Wrappers
  import opened ZWave
  import CText

  const KeyLength := 16

  /** Why parsing the key failed: the number of pieces, or the index of the first bad one. */
  datatype KeyError = WrongCount(count: nat) | BadByte(index: nat)

  /** The option's text; an absent option leaves the string empty. */
  function OptionText(option: Option<string>): string
  {
    if option.Some? then option.value else ""
  }

  /** `isNetworkKeySet`: the option exists and is not empty. */
  predicate IsNetworkKeySet(option: Option<string>)
  {
    option.Some? && |option.value| > 0
  }

  function KeyPieces(option: Option<string>): seq<string>
  {
    CText.Split(OptionText(option), ',')
  }

  /** One piece, converted as the driver evidently intends: a piece with a hexadecimal number
      gives its low byte; anything else, an all-blank piece included, is unconvertible. */
  function ByteOf(p: string): Option<uint8>
  {
    match CText.ScanHex(CText.Trim(p))
    case Matched(v) => Some(v % 256)
    case _ => None
  }

  /** Every piece's conversion, in order. */
  function Conversions(ps: seq<string>): (cs: seq<Option<uint8>>)
    ensures |cs| == |ps|
  {
    seq(|ps|, i requires 0 <= i < |ps| => ByteOf(ps[i]))
  }

  /** `cs` holds the conversions of `ps`; the trigger keeps this from converting pieces the
      proof does not mention. */
  predicate Agree(ps: seq<string>, cs: seq<Option<uint8>>)
  {
    |cs| == |ps| && forall j {:trigger ByteOf(ps[j])} :: 0 <= j < |ps| ==> cs[j] == ByteOf(ps[j])
  }

  /** All conversions at once. */
  lemma ConversionsAll(ps: seq<string>)
    ensures Agree(ps, Conversions(ps))
  {
  }

  /** The number of leading conversions that succeeded. */
  function Converted(cs: seq<Option<uint8>>): nat
  {
    if cs == [] || cs[0].None? then 0 else 1 + Converted(cs[1..])
  }

  /** `Converted` counts exactly the leading run of successes. */
  lemma {:induction false} ConvertedSpec(cs: seq<Option<uint8>>)
    ensures Converted(cs) <= |cs|
    ensures forall i :: 0 <= i < Converted(cs) ==> cs[i].Some?
    ensures Converted(cs) < |cs| ==> cs[Converted(cs)].None?
  {
    if cs != [] && cs[0].Some? {
      ConvertedSpec(cs[1..]);
      assert forall i :: 1 <= i < Converted(cs) ==> cs[i] == cs[1..][i - 1];
    }
  }

  /** Past a run of successes, one more success extends the run ... */
  lemma ConvertedNext(cs: seq<Option<uint8>>, i: nat)
    requires i < |cs| && i <= Converted(cs) && cs[i].Some?
    ensures i + 1 <= Converted(cs)
  {
    ConvertedSpec(cs);
  }

  /** ... and a failure ends it. */
  lemma ConvertedStops(cs: seq<Option<uint8>>, i: nat)
    requires i < |cs| && i <= Converted(cs) && cs[i].None?
    ensures Converted(cs) == i
  {
    ConvertedSpec(cs);
  }

  /** The bytes of the first `k` conversions. */
  function Bytes(cs: seq<Option<uint8>>, k: nat): (bs: seq<uint8>)
    requires k <= Converted(cs) && k <= |cs|
    ensures |bs| == k
  {
    if k == 0 then []
    else
      ConvertedSpec(cs);
      Bytes(cs, k - 1) + [cs[k - 1].value]
  }

  /** Byte `i` of `Bytes` is conversion `i`. */
  lemma {:induction false} BytesSpec(cs: seq<Option<uint8>>, k: nat)
    requires k <= Converted(cs) && k <= |cs|
    ensures forall i :: 0 <= i < k ==> Some(Bytes(cs, k)[i]) == cs[i]
  {
    if k > 0 {
      ConvertedSpec(cs);
      BytesSpec(cs, k - 1);
      assert forall i :: 0 <= i < k - 1 ==> Bytes(cs, k)[i] == Bytes(cs, k - 1)[i];
    }
  }

  /** `Bytes` grows one success at a time. */
  lemma BytesNext(cs: seq<Option<uint8>>, i: nat)
    requires i < |cs| && i < Converted(cs)
    ensures cs[i].Some? && Bytes(cs, i + 1) == Bytes(cs, i) + [cs[i].value]
  {
    ConvertedSpec(cs);
  }

  /** Conversions that all succeed give their bytes. */
  lemma {:induction false} BytesOfConversions(cs: seq<Option<uint8>>, key: seq<uint8>, k: nat)
    requires |cs| == |key| && k <= |cs|
    requires forall i :: 0 <= i < |cs| ==> cs[i] == Some(key[i])
    ensures k <= Converted(cs) && Bytes(cs, k) == key[..k]
  {
    ConvertedSpec(cs);
    if k > 0 {
      BytesOfConversions(cs, key, k - 1);
      assert key[..k] == key[..k - 1] + [key[k - 1]];
    }
  }

  /** The key check on the pieces' conversions: sixteen of them, all successful. */
  function ParseKey(cs: seq<Option<uint8>>): Result<seq<uint8>, KeyError>
  {
    if |cs| != KeyLength then Failure(WrongCount(|cs|))
    else if Converted(cs) < KeyLength then Failure(BadByte(Converted(cs)))
    else Success(Bytes(cs, KeyLength))
  }

  /** `GetNetworkKey`, with the conversion check it evidently intends. */
  function ParseNetworkKey(option: Option<string>): Result<seq<uint8>, KeyError>
  {
    ParseKey(Conversions(KeyPieces(option)))
  }

  /** The parse succeeds exactly when there are sixteen pieces and every one converts, and then
      byte i is piece i's number modulo 256; otherwise it names the count or the first bad piece. */
  lemma ParseNetworkKeySpec(option: Option<string>)
    ensures var ps := KeyPieces(option);
            var r := ParseNetworkKey(option);
            (r.Success? <==> |ps| == KeyLength && forall i :: 0 <= i < |ps| ==> ByteOf(ps[i]).Some?) &&
            (r.Success? ==> |r.value| == KeyLength &&
                            forall i :: 0 <= i < KeyLength ==> Some(r.value[i]) == ByteOf(ps[i])) &&
            (|ps| != KeyLength ==> r == Failure(WrongCount(|ps|))) &&
            (r.Failure? && r.error.BadByte? ==>
               r.error.index < KeyLength && ByteOf(ps[r.error.index]).None? &&
               forall i :: 0 <= i < r.error.index ==> ByteOf(ps[i]).Some?)
  {
    var ps := KeyPieces(option);
    var cs := Conversions(ps);
    ConversionsAll(ps);
    ParseKeySpec(cs);
    assert forall i :: 0 <= i < |ps| ==> cs[i] == ByteOf(ps[i]);
  }

  /** `ParseKey` on any conversions: success exactly when there are sixteen and all succeeded. */
  lemma ParseKeySpec(cs: seq<Option<uint8>>)
    ensures var r := ParseKey(cs);
            (r.Success? <==> |cs| == KeyLength && forall i :: 0 <= i < |cs| ==> cs[i].Some?) &&
            (r.Success? ==> |r.value| == KeyLength && forall i :: 0 <= i < KeyLength ==> Some(r.value[i]) == cs[i]) &&
            (|cs| != KeyLength ==> r == Failure(WrongCount(|cs|))) &&
            (r.Failure? && r.error.BadByte? ==>
               r.error.index < KeyLength && cs[r.error.index].None? &&
               forall i :: 0 <= i < r.error.index ==> cs[i].Some?)
  {
    ConvertedSpec(cs);
    if |cs| == KeyLength && Converted(cs) == KeyLength {
      BytesSpec(cs, KeyLength);
    }
  }

  /** The conversion loop of `GetNetworkKey`: piece `i` becomes byte `i` of `key` until a piece
      does not convert; `k` is the number converted. */
  method ConvertPieces(key: array<uint8>, ps: seq<string>, ghost cs: seq<Option<uint8>>) returns (k: nat)
    requires key.Length == |ps| && Agree(ps, cs)
    modifies key
    ensures k == Converted(cs) && k <= |ps|
    ensures key[..k] == Bytes(cs, k) && key[k..] == old(key[k..])
  {
    var i := 0;
    while i < |ps|
      invariant 0 <= i <= |ps| && i <= Converted(cs)
      invariant key[..i] == Bytes(cs, i)
      invariant forall j :: i <= j < key.Length ==> key[j] == old(key[j])
    {
      var b := PieceByte(ps, cs, i);
      if b.None? {
        ConvertedStops(cs, i);
        break;
      }
      ConvertedNext(cs, i);
      BytesNext(cs, i);
      ghost var done := key[..i];
      label before:
      key[i] := b.value;
      assert forall j :: 0 <= j < i ==> key[j] == old@before(key[j]);
      assert key[..i] == done;
      assert key[..i + 1] == done + [b.value];
      i := i + 1;
    }
    KeptSuffix(key, old(key[..]), i);
    if i == |ps| {
      ConvertedSpec(cs);
    }
    return i;
  }

  /** The `sscanf` of piece `i`: a piece that is a run of hex digits denoting a byte gives that
      byte, a piece that is blank after trimming gives no byte, and either way the result is
      the piece's conversion. */
  method PieceByte(ps: seq<string>, ghost cs: seq<Option<uint8>>, i: nat) returns (b: Option<uint8>)
    requires i < |ps| && Agree(ps, cs)
    ensures PlainHex(ps[i]) && CText.DigitsValue(ps[i], 16) < 256 ==> b == Some(CText.DigitsValue(ps[i], 16) as uint8)
    ensures CText.Trim(ps[i]) == "" ==> b == None
    ensures b == cs[i]
  {
    b := ByteOf(ps[i]);
    if PlainHex(ps[i]) && CText.DigitsValue(ps[i], 16) < 256 {
      ByteOfDigits(ps[i]);
    }
    if CText.Trim(ps[i]) == "" {
      BlankByte(ps[i]);
    }
  }

  /** A piece that is blank after trimming converts to no byte. */
  lemma BlankByte(p: string)
    requires CText.Trim(p) == ""
    ensures ByteOf(p) == None
  {
    assert CText.SkipSpaces("") == 0;
  }

  /** The entries of an array from `i` on that a loop left alone. */
  lemma KeptSuffix(key: array<uint8>, before: seq<uint8>, i: nat)
    requires |before| == key.Length && i <= key.Length
    requires forall j :: i <= j < key.Length ==> key[j] == before[j]
    ensures key[i..] == before[i..]
  {
  }

  /** `GetNetworkKey`'s function-static `keybytes` and `keySet`, shared by every driver. */
  class KeyStore {
    const keyBytes: array<uint8>
    var keySet: bool

    /** Static storage starts zeroed. */
    constructor()
      ensures keyBytes.Length == KeyLength && keyBytes[..] == seq(KeyLength, _ => 0) && !keySet
    {
      keyBytes := new uint8[KeyLength](_ => 0);
      keySet := false;
    }

    /** `GetNetworkKey`: the first call parses the `NetworkKey` option into the static key
        bytes; a failure is fatal in the source (an exception) and is returned here, with the
        bytes converted before the bad piece already written. Later calls return the bytes. */
    method GetNetworkKey(option: Option<string>) returns (r: Result<seq<uint8>, KeyError>)
      requires keyBytes.Length == KeyLength
      modifies keyBytes, this`keySet
      ensures old(keySet) ==> keySet && r == Success(old(keyBytes[..])) && keyBytes[..] == old(keyBytes[..])
      ensures !old(keySet) ==> r == ParseNetworkKey(option) && (keySet <==> r.Success?)
      ensures !old(keySet) && r.Success? ==> keyBytes[..] == r.value
      ensures !old(keySet) && r.Failure? && r.error.BadByte? ==>
                var k := r.error.index;
                k < KeyLength && keyBytes[..k] == Bytes(Conversions(KeyPieces(option)), k) &&
                keyBytes[k..] == old(keyBytes[k..])
      ensures !old(keySet) && r.Failure? && r.error.WrongCount? ==> keyBytes[..] == old(keyBytes[..])
    {
      if keySet {
        r := Success(keyBytes[..]);
      } else {
        var ps := KeyPieces(option);
        ConversionsAll(ps);
        r := ParsePieces(keyBytes, ps, Conversions(ps));
        keySet := r.Success?;
      }
    }
  }

  /** The count check and the conversion loop of `GetNetworkKey`, on pieces `ps` whose
      conversions are `cs`. */
  method ParsePieces(key: array<uint8>, ps: seq<string>, ghost cs: seq<Option<uint8>>)
    returns (r: Result<seq<uint8>, KeyError>)
    requires key.Length == KeyLength && Agree(ps, cs)
    modifies key
    ensures r == ParseKey(cs)
    ensures r.Success? ==> key[..] == r.value
    ensures r.Failure? && r.error.BadByte? ==>
              var k := r.error.index;
              k < KeyLength && key[..k] == Bytes(cs, k) && key[k..] == old(key[k..])
    ensures r.Failure? && r.error.WrongCount? ==> key[..] == old(key[..])
  {
    if |ps| != KeyLength {
      r := Failure(WrongCount(|ps|));
    } else {
      var k := ConvertPieces(key, ps, cs);
      if k < KeyLength {
        r := Failure(BadByte(k));
      } else {
        assert key[..] == key[..k];
        r := Success(key[..]);
      }
    }
  }

  /** A key that is not set has no pieces, so it cannot be read. */
  lemma UnsetKeyFails(option: Option<string>)
    requires !IsNetworkKeySet(option)
    ensures ParseNetworkKey(option) == Failure(WrongCount(0))
  {
    assert OptionText(option) == "";
    assert CText.Pieces("", ',') == [""];
  }

  // ------------------------------------------------------------------
  // Writing a key
  // ------------------------------------------------------------------

  /** Pieces joined with commas. */
  function Joined(ps: seq<string>): string
    requires |ps| >= 1
  {
    if |ps| == 1 then ps[0] else ps[0] + "," + Joined(ps[1..])
  }

  lemma {:induction false} PiecesOfJoined(ps: seq<string>)
    requires |ps| >= 1 && forall i :: 0 <= i < |ps| ==> ',' !in ps[i]
    ensures CText.Pieces(Joined(ps), ',') == ps
  {
    if |ps| > 1 {
      var rest := ps[1..];
      assert ',' !in ps[0];
      assert forall i :: 0 <= i < |rest| ==> rest[i] == ps[i + 1];
      assert Joined(ps) == ps[0] + "," + Joined(rest);
      FirstComma(ps[0], Joined(rest));
      PiecesOfJoined(rest);
      assert [ps[0]] + rest == ps;
    }
  }

  /** The first comma of `p,t` is the one after `p`, when `p` has none. */
  lemma FirstComma(p: string, t: string)
    requires ',' !in p
    ensures var s := p + "," + t;
            CText.Pieces(s, ',') == [p] + CText.Pieces(t, ',')
  {
    var s := p + "," + t;
    assert s[|p|] == ',';
    assert forall j :: 0 <= j < |p| ==> s[j] == p[j];
    var i := CText.IndexOf(s, ',');
    CText.IndexOfFirst(s, ',', |p|);
    assert i == |p|;
    assert s[..i] == p;
    assert s[i + 1..] == t;
  }

  lemma {:induction false} NonEmptyKeeps(ps: seq<string>)
    requires forall i :: 0 <= i < |ps| ==> ps[i] != ""
    ensures CText.NonEmpty(ps) == ps
  {
    if ps != [] { NonEmptyKeeps(ps[1..]); }
  }

  /** Comma-free, non-empty pieces survive a join and a split unchanged. */
  lemma SplitJoined(ps: seq<string>)
    requires |ps| >= 1 && forall i :: 0 <= i < |ps| ==> ',' !in ps[i] && ps[i] != ""
    ensures CText.Split(Joined(ps), ',') == ps
  {
    PiecesOfJoined(ps);
    NonEmptyKeeps(ps);
  }

  /** A key written as sixteen two-digit lower-case hex bytes separated by commas. */
  function KeyText(key: seq<uint8>): string
    requires |key| == KeyLength
  {
    Joined(seq(KeyLength, i requires 0 <= i < KeyLength => CText.Hex(key[i], 2)))
  }

  /** A run of lower-case hex digits: no blanks, no sign, no "0x" prefix. */
  predicate PlainHex(h: string)
  {
    |h| >= 1 && forall i :: 0 <= i < |h| ==> CText.IsDigit(h[i], 16) && CText.IsLowerHexChar(h[i])
  }

  lemma TrimPlain(h: string)
    requires PlainHex(h)
    ensures CText.SkipSpaces(h) == 0 && CText.Trim(h) == h
  {
    assert !CText.IsSpace(h[0]) && !CText.IsSpace(h[|h| - 1]);
    assert h[0..] == h;
  }

  lemma SubjectOfPlain(h: string)
    requires PlainHex(h)
    ensures CText.SubjectOf(h, 16) == CText.Subject(false, 16, h)
  {
    TrimPlain(h);
    assert h[0..] == h;
    CText.DigitRunAll(h, 16);
    assert h[..|h|] == h;
  }

  /** Such a run, when it denotes a byte, converts to that byte. */
  lemma ByteOfDigits(h: string)
    requires PlainHex(h) && CText.DigitsValue(h, 16) < 256
    ensures ByteOf(h) == Some(CText.DigitsValue(h, 16))
  {
    TrimPlain(h);
    SubjectOfPlain(h);
    assert CText.StrToUL(h, 16) == CText.DigitsValue(h, 16);
    assert CText.ScanHex(h) == CText.Matched(CText.DigitsValue(h, 16));
  }

  lemma ByteOfHex(b: uint8)
    ensures ',' !in CText.Hex(b, 2) && CText.Hex(b, 2) != ""
    ensures ByteOf(CText.Hex(b, 2)) == Some(b)
  {
    assert CText.Pow(16, 2) == 256;
    CText.HexFacts(b, 2);
    ByteOfDigits(CText.Hex(b, 2));
  }

  /** Round trip: a key written out as text reads back as the same sixteen bytes. */
  lemma KeyTextRoundTrip(key: seq<uint8>)
    requires |key| == KeyLength
    ensures ParseNetworkKey(Some(KeyText(key))) == Success(key)
  {
    var ps := seq(KeyLength, i requires 0 <= i < KeyLength => CText.Hex(key[i], 2));
    forall i | 0 <= i < KeyLength
      ensures ',' !in ps[i] && ps[i] != "" && ByteOf(ps[i]) == Some(key[i])
    {
      ByteOfHex(key[i]);
    }
    SplitJoined(ps);
    assert KeyPieces(Some(KeyText(key))) == ps;
    ConversionsAll(ps);
    BytesOfConversions(Conversions(ps), key, KeyLength);
    assert key[..KeyLength] == key;
  }

  // ------------------------------------------------------------------
  // The conversion as written
  // ------------------------------------------------------------------

  /** One piece converted as the source is written: only a `sscanf` result of 0 is rejected,
      so an all-blank piece, for which `sscanf` returns EOF and stores nothing, contributes the
      low byte of whatever the uninitialised `tempkey` slot held (`garbage`). */
  function ByteOfAsWritten(p: string, garbage: nat): Option<uint8>
  {
    match CText.ScanHex(CText.Trim(p))
    case Matched(v) => Some(v % 256)
    case InputFailure => Some(garbage % 256)
    case NoMatch => None
  }

  /** Every piece's conversion as written; `garbage[i]` is what `tempkey[i]` held. */
  function ConversionsAsWritten(ps: seq<string>, garbage: seq<nat>): (cs: seq<Option<uint8>>)
    requires |garbage| >= |ps|
    ensures |cs| == |ps|
  {
    seq(|ps|, i requires 0 <= i < |ps| => ByteOfAsWritten(ps[i], garbage[i]))
  }

  /** `GetNetworkKey` as written, given the stale contents of `tempkey`. */
  function ParseNetworkKeyAsWritten(option: Option<string>, garbage: seq<nat>): Result<seq<uint8>, KeyError>
    requires |garbage| == KeyLength
  {
    var ps := KeyPieces(option);
    if |ps| != KeyLength then Failure(WrongCount(|ps|))
    else ParseKey(ConversionsAsWritten(ps, garbage))
  }

  /** `k + 1` zeros separated by commas. */
  function ZeroList(k: nat): string
  {
    if k == 0 then "0" else "0," + ZeroList(k - 1)
  }

  lemma {:induction false} JoinedZeros(k: nat)
    ensures Joined(seq(k + 1, _ => "0")) == ZeroList(k)
  {
    if k > 0 {
      assert seq(k + 1, _ => "0")[1..] == seq(k, _ => "0");
      JoinedZeros(k - 1);
    }
  }

  lemma {:induction false} BlankJoined(zs: seq<string>, k: nat)
    requires zs == seq(k + 1, _ => "0")
    ensures Joined([" "] + zs) == " ," + ZeroList(k)
  {
    JoinedZeros(k);
    assert ([" "] + zs)[1..] == zs;
  }

  /** The pieces of the key " ,0,0,0,0,0,0,0,0,0,0,0,0,0,0,0": a blank, then fifteen zeros. */
  lemma BlankKeyPieces() returns (ps: seq<string>)
    ensures |ps| == KeyLength && ps[0] == " " && forall i :: 1 <= i < |ps| ==> ps[i] == "0"
    ensures KeyPieces(Some(" ," + ZeroList(14))) == ps
  {
    var zs := seq(15, _ => "0");
    ps := [" "] + zs;
    BlankJoined(zs, 14);
    forall i | 0 <= i < |ps| ensures ',' !in ps[i] && ps[i] != "" {
      if i == 0 { assert ps[i] == " "; } else { assert ps[i] == "0"; }
    }
    SplitJoined(ps);
  }

  lemma BlankAndZero(g: nat)
    ensures ByteOf(" ") == None && ByteOfAsWritten(" ", g) == Some(g % 256)
    ensures ByteOf("0") == Some(0) && ByteOfAsWritten("0", g) == Some(0)
  {
    assert CText.Trim(" ") == "";
    assert CText.DigitsValue("0", 16) == 0;
    ByteOfDigits("0");
  }

  /** The key " ,0,0,0,0,0,0,0,0,0,0,0,0,0,0,0", read as intended, fails at its blank first piece. */
  lemma BlankByteRejected()
    ensures ParseNetworkKey(Some(" ," + ZeroList(14))) == Failure(BadByte(0))
  {
    var ps := BlankKeyPieces();
    BlankAndZero(0);
  }

  /** The same key, read as written, is accepted, and its first byte is stack garbage. */
  lemma BlankByteAccepted(garbage: seq<nat>)
    requires |garbage| == KeyLength
    ensures var r := ParseNetworkKeyAsWritten(Some(" ," + ZeroList(14)), garbage);
            r.Success? && r.value[0] == garbage[0] % 256
  {
    var ps := BlankKeyPieces();
    var cs := ConversionsAsWritten(ps, garbage);
    forall i | 0 <= i < KeyLength
      ensures cs[i].Some?
    {
      BlankPieceAsWritten(ps, garbage, i);
    }
    BlankPieceAsWritten(ps, garbage, 0);
    ParseKeySpec(cs);
  }

  /** Piece by piece: as written, the blank piece gives its garbage byte and a zero gives 0. */
  lemma BlankPieceAsWritten(ps: seq<string>, garbage: seq<nat>, i: nat)
    requires |ps| == KeyLength && ps[0] == " " && forall j :: 1 <= j < |ps| ==> ps[j] == "0"
    requires |garbage| == KeyLength && i < KeyLength
    ensures ConversionsAsWritten(ps, garbage)[i] == Some(if i == 0 then garbage[0] % 256 else 0)
  {
    BlankAndZero(garbage[i]);
    if i == 0 {
      assert ps[i] == " ";
    } else {
      assert ps[i] == "0";
    }
  }
}
