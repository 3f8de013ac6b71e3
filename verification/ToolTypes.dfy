/** The Tool Types of the icon: a list of length-prefixed, NUL-terminated strings behind a pointer-array size. */
module ToolTypes {
  import opened Machine

  datatype Result<+T> = Ok(value: T) | NotAscii | TooLong

  predicate Ascii(s: string) {
    forall i :: 0 <= i < |s| ==> s[i] as int < 128
  }

  function Bytes(s: string): seq<Byte>
    requires Ascii(s)
  {
    seq(|s|, i requires 0 <= i < |s| => s[i] as int)
  }

  /** struct.pack('>I', n), which refuses numbers beyond 32 bits. */
  function Pack(n: nat): Result<seq<Byte>> {
    if n < 0x1_0000_0000 then Ok([n / 0x100_0000, n / 0x1_0000 % 0x100, n / 0x100 % 0x100, n % 0x100]) else TooLong
  }

  function Unpack(bs: seq<Byte>): Option<nat> {
    if |bs| < 4 then None
    else Some(bs[0] as int * 0x100_0000 + bs[1] as int * 0x1_0000 + bs[2] as int * 0x100 + bs[3])
  }

  /** serialize_string: the length counts the terminating NUL. */
  function SerializeString(s: string): Result<seq<Byte>> {
    if !Ascii(s) then NotAscii
    else
      var encoded := Bytes(s) + [0];
      match Pack(|encoded|)
      case Ok(prefix) => Ok(prefix + encoded)
      case _ => TooLong
  }

  /** The strings one after the other; the first that cannot be written decides the error. */
  function SerializeStrings(types: seq<string>): Result<seq<Byte>> {
    if types == [] then Ok([])
    else
      match SerializeStrings(types[..|types| - 1])
      case Ok(front) =>
        (match SerializeString(types[|types| - 1])
         case Ok(last) => Ok(front + last)
         case error => error)
      case error => error
  }

  function Serialize(types: seq<string>): Result<seq<Byte>> {
    match Pack((|types| + 1) * 4)
    case Ok(header) =>
      (match SerializeStrings(types)
       case Ok(body) => Ok(header + body)
       case error => error)
    case error => error
  }

  /** serialize_tooltypes. */
  method SerializeTooltypes(types: seq<string>) returns (r: Result<seq<Byte>>)
    ensures r == Serialize(types)
  {
    hide Pack, SerializeString;
    var header := Pack((|types| + 1) * 4);
    if !header.Ok? {
      return header;
    }
    var data := header.value;
    assert data == header.value + [];
    for i := 0 to |types|
      invariant SerializeStrings(types[..i]).Ok? && data == header.value + SerializeStrings(types[..i]).value
    {
      assert types[..i + 1][..i] == types[..i];
      var one := SerializeString(types[i]);
      if !one.Ok? {
        FirstErrorDecides(types, i + 1);
        return one;
      }
      assert header.value + (SerializeStrings(types[..i]).value + one.value) == data + one.value;
      data := data + one.value;
    }
    assert types[..|types|] == types;
    r := Ok(data);
  }

  lemma {:induction false} FirstErrorDecides(types: seq<string>, n: nat)
    requires n <= |types| && !SerializeStrings(types[..n]).Ok?
    ensures SerializeStrings(types) == SerializeStrings(types[..n])
  {
    if n < |types| {
      var front := types[..|types| - 1];
      assert front[..n] == types[..n];
      FirstErrorDecides(front, n);
    } else {
      assert types[..n] == types;
    }
  }

  // ---- The decoder ----

  /** One string and what follows it. */
  function DecodeString(bs: seq<Byte>): Option<(string, seq<Byte>)> {
    var n := Unpack(bs);
    if n.None? || n.value == 0 || |bs| < 4 + n.value || bs[4 + n.value - 1] != 0 then None
    else Some((seq(n.value - 1, i requires 0 <= i < n.value - 1 => bs[4 + i] as char), bs[4 + n.value..]))
  }

  function DecodeStrings(bs: seq<Byte>, count: nat): Option<(seq<string>, seq<Byte>)> {
    if count == 0 then Some(([], bs))
    else
      var first := DecodeString(bs);
      if first.None? then None
      else
        var rest := DecodeStrings(first.value.1, count - 1);
        if rest.None? then None else Some(([first.value.0] + rest.value.0, rest.value.1))
  }

  /** A list of Tool Types and what follows it. */
  function Decode(bs: seq<Byte>): Option<(seq<string>, seq<Byte>)> {
    var size := Unpack(bs);
    if size.None? || size.value < 4 || size.value % 4 != 0 then None
    else DecodeStrings(bs[4..], size.value / 4 - 1)
  }

  lemma FourBytes(n: nat)
    requires n < 0x1_0000_0000
    ensures n / 0x100_0000 < 0x100
    ensures n == n / 0x100_0000 * 0x100_0000 + n / 0x1_0000 % 0x100 * 0x1_0000 + n / 0x100 % 0x100 * 0x100 + n % 0x100
  {
    assert n / 0x1_0000 == n / 0x100 / 0x100 && n / 0x100_0000 == n / 0x1_0000 / 0x100;
  }

  lemma UnpackPack(n: nat, rest: seq<Byte>)
    requires n < 0x1_0000_0000
    ensures Pack(n).Ok? && |Pack(n).value| == 4 && Unpack(Pack(n).value + rest) == Some(n)
  {
    FourBytes(n);
    var a: Byte, b: Byte, c: Byte, d: Byte := n / 0x100_0000, n / 0x1_0000 % 0x100, n / 0x100 % 0x100, n % 0x100;
    assert Pack(n) == Ok([a, b, c, d]);
    UnpackFour(a, b, c, d, rest);
  }

  lemma UnpackFour(a: Byte, b: Byte, c: Byte, d: Byte, rest: seq<Byte>)
    ensures Unpack([a, b, c, d] + rest)
         == Some(a as int * 0x100_0000 + b as int * 0x1_0000 + c as int * 0x100 + d as int)
  {}

  lemma DecodeOne(s: string, trailing: seq<Byte>)
    requires SerializeString(s).Ok?
    ensures |SerializeString(s).value| == |s| + 5
    ensures DecodeString(SerializeString(s).value + trailing) == Some((s, trailing))
  {
    hide Pack, Unpack;
    var n := |s| + 1;
    var encoded := Bytes(s) + [0];
    assert n < 0x1_0000_0000 by { PackOkIff(n); }
    UnpackPack(n, encoded + trailing);
    var prefix := Pack(n).value;
    var bs := (prefix + encoded) + trailing;
    assert bs == prefix + (encoded + trailing);
    assert bs[4 + n..] == trailing;
    assert forall i :: 0 <= i < n ==> bs[4 + i] == encoded[i];
    assert seq(n - 1, i requires 0 <= i < n - 1 => bs[4 + i] as char) == s;
  }

  lemma PackOkIff(n: nat)
    ensures Pack(n).Ok? <==> n < 0x1_0000_0000
  {}

  function TotalLength(types: seq<string>): nat {
    if types == [] then 0 else |types[0]| + 5 + TotalLength(types[1..])
  }

  /** The serialised list splits at its first string. */
  lemma {:induction false} SplitFirst(types: seq<string>)
    requires types != [] && SerializeStrings(types).Ok?
    ensures SerializeString(types[0]).Ok? && SerializeStrings(types[1..]).Ok?
    ensures SerializeStrings(types).value == SerializeString(types[0]).value + SerializeStrings(types[1..]).value
  {
    hide SerializeString;
    var front, last := types[..|types| - 1], types[|types| - 1];
    if front == [] {
      assert types[1..] == [];
      var one := SerializeString(last).value;
      assert [] + one == one == one + [];
    } else {
      SplitFirst(front);
      assert front[1..] == types[1..][..|types| - 2];
      var a, b, c := SerializeString(types[0]).value, SerializeStrings(front[1..]).value, SerializeString(last).value;
      assert (a + b) + c == a + (b + c);
    }
  }

  lemma {:induction false} DecodeAll(types: seq<string>, trailing: seq<Byte>)
    requires SerializeStrings(types).Ok?
    ensures |SerializeStrings(types).value| == TotalLength(types)
    ensures DecodeStrings(SerializeStrings(types).value + trailing, |types|) == Some((types, trailing))
  {
    hide SerializeString, DecodeString;
    if types == [] {
      assert [] + trailing == trailing;
    } else {
      SplitFirst(types);
      var first, rest := SerializeString(types[0]).value, SerializeStrings(types[1..]).value;
      DecodeAll(types[1..], trailing);
      DecodeOne(types[0], rest + trailing);
      assert (first + rest) + trailing == first + (rest + trailing);
      assert [types[0]] + types[1..] == types;
    }
  }

  /**
    The encoding is self-delimiting: behind any trailing bytes the decoder recovers the list and exactly those bytes,
    and the length is 4 plus, for every string, its own length and 5.
   */
  lemma DecodeUndoesSerialize(types: seq<string>, trailing: seq<Byte>)
    requires Serialize(types).Ok?
    ensures Decode(Serialize(types).value + trailing) == Some((types, trailing))
    ensures |Serialize(types).value| == 4 + TotalLength(types)
  {
    hide Pack, Unpack, SerializeStrings, DecodeStrings;
    var size := (|types| + 1) * 4;
    PackOkIff(size);
    var body := SerializeStrings(types).value;
    UnpackPack(size, body + trailing);
    var header := Pack(size).value;
    assert (header + body) + trailing == header + (body + trailing);
    assert (header + (body + trailing))[4..] == body + trailing;
    DecodeAll(types, trailing);
  }

  /** So no serialised list is the beginning of another. */
  lemma SerializeIsPrefixFree(a: seq<string>, b: seq<string>, x: seq<Byte>, y: seq<Byte>)
    requires Serialize(a).Ok? && Serialize(b).Ok? && Serialize(a).value + x == Serialize(b).value + y
    ensures a == b && x == y
  {
    hide Serialize, Decode;
    DecodeUndoesSerialize(a, x);
    DecodeUndoesSerialize(b, y);
  }

  /** Writing succeeds exactly for lists of ASCII strings whose lengths and number fit the 32-bit prefixes. */
  lemma {:induction false} SerializesIff(types: seq<string>)
    ensures SerializeStrings(types).Ok? <==> forall s <- types :: Ascii(s) && |s| + 1 < 0x1_0000_0000
    ensures Serialize(types).Ok? <==>
              SerializeStrings(types).Ok? && |types| + 1 < 0x4000_0000
  {
    hide Ascii, Bytes;
    PackOkIff((|types| + 1) * 4);
    if types == [] {
    } else {
      var front, last := types[..|types| - 1], types[|types| - 1];
      SerializesIff(front);
      PackOkIff(|last| + 1);
      assert forall s <- types :: s in front || s == last;
      assert last in types && forall s <- front :: s in types;
      assert SerializeString(last).Ok? <==> Ascii(last) && |last| + 1 < 0x1_0000_0000 by { OneSerializesIff(last); }
    }
  }

  lemma OneSerializesIff(s: string)
    ensures SerializeString(s).Ok? <==> Ascii(s) && |s| + 1 < 0x1_0000_0000
  {
    hide Ascii;
    PackOkIff(|s| + 1);
  }

  /** The number that four bytes make, the most significant first. */
  function Four(bs: seq<Byte>): nat
    requires |bs| >= 4
  {
    bs[0] as int * 0x100_0000 + bs[1] as int * 0x1_0000 + bs[2] as int * 0x100 + bs[3] as int
  }

  lemma PackedIsFour(n: nat)
    requires Pack(n).Ok?
    ensures |Pack(n).value| == 4 && Four(Pack(n).value) == n
  {
    PackOkIff(n);
    FourBytes(n);
  }

  /** A string is written as its length with the NUL, in four bytes, its characters, and the NUL. */
  lemma StringLayout(s: string)
    requires SerializeString(s).Ok?
    ensures var bs := SerializeString(s).value;
            && |bs| == |s| + 5 && Four(bs) == |s| + 1 && bs[|s| + 4] == 0
            && forall i :: 0 <= i < |s| ==> bs[4 + i] == s[i] as int
  {
    hide Pack;
    PackedIsFour(|s| + 1);
  }

  /** The list begins with the size of an array of that many pointers and a NULL; then come the strings. */
  lemma ListLayout(types: seq<string>)
    requires Serialize(types).Ok?
    ensures var bs := Serialize(types).value;
            && |bs| >= 4 && Four(bs) == 4 * (|types| + 1)
            && SerializeStrings(types).Ok? && bs[4..] == SerializeStrings(types).value
  {
    hide Pack, SerializeStrings;
    PackedIsFour((|types| + 1) * 4);
  }
}
