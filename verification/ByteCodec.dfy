/** Values as the store keeps them: a four-byte version header (req_server.cc) followed by
  * the UTF-16 units of a JavaScript string, both little-endian (the services). */
module ByteCodec {
  newtype byte = b: int | 0 <= b < 256
  newtype unit = u: int | 0 <= u < 0x1_0000   // a JavaScript character

  const HEADER: nat := 4

  // The int that `db_set` writes in front of the content.
  function Header(version: nat): (h: seq<byte>)
    requires version < 0x1_0000_0000
    ensures |h| == HEADER
  {
    [(version % 0x100) as byte, (version / 0x100 % 0x100) as byte,
     (version / 0x1_0000 % 0x100) as byte, (version / 0x100_0000) as byte]
  }

  // `*(int*)data` in db.cc, and `abversion` in the services.
  function VersionOf(data: seq<byte>): (v: nat)
    requires |data| >= HEADER
    ensures v < 0x1_0000_0000
  {
    data[0] as nat + data[1] as nat * 0x100 + data[2] as nat * 0x1_0000 + data[3] as nat * 0x100_0000
  }

  // The bytes of a Uint16Array.
  function Bytes(str: seq<unit>): (b: seq<byte>)
    ensures |b| == 2 * |str|
  {
    if str == [] then [] else [(str[0] % 0x100) as byte, (str[0] / 0x100) as byte] + Bytes(str[1..])
  }

  // A Uint16Array over a buffer; an odd length is a RangeError.
  function Units(b: seq<byte>): (str: seq<unit>)
    requires |b| % 2 == 0
    ensures |str| == |b| / 2
  {
    if b == [] then [] else [b[0] as unit + b[1] as unit * 0x100] + Units(b[2..])
  }

  function Substring2(str: seq<unit>): (r: seq<unit>)
  {
    if |str| < 2 then [] else str[2..]
  }

  function Ab2Str(b: seq<byte>): (str: seq<unit>)
    requires |b| % 2 == 0
  {
    Substring2(Units(b))
  }

  lemma {:induction false} BytesSnoc(str: seq<unit>, u: unit)
    ensures Bytes(str + [u]) == Bytes(str) + [(u % 0x100) as byte, (u / 0x100) as byte]
  {
    if str != [] {
      assert (str + [u])[1..] == str[1..] + [u];
      BytesSnoc(str[1..], u);
    } else {
      assert str + [u] == [u];
    }
  }

  // The low byte comes first.
  predicate LittleEndian(u: unit, first: byte, second: byte) {
    u as int == first as int + 0x100 * second as int
  }

  method Str2Ab(str: seq<unit>) returns (buf: array<byte>)
    ensures fresh(buf) && buf[..] == Bytes(str)
    ensures buf.Length == 2 * |str| && forall i :: 0 <= i < |str| ==> LittleEndian(str[i], buf[2 * i], buf[2 * i + 1])
  {
    buf := new byte[2 * |str|];
    var i := 0;
    while i < |str|
      invariant 0 <= i <= |str|
      invariant buf[..2 * i] == Bytes(str[..i])
      invariant forall j :: 0 <= j < i ==> LittleEndian(str[j], buf[2 * j], buf[2 * j + 1])
    {
      buf[2 * i] := (str[i] % 0x100) as byte;
      buf[2 * i + 1] := (str[i] / 0x100) as byte;
      BytesSnoc(str[..i], str[i]);
      assert str[..i + 1] == str[..i] + [str[i]];
      assert buf[..2 * (i + 1)] == buf[..2 * i] + [buf[2 * i], buf[2 * i + 1]];
      i := i + 1;
    }
    assert str[..i] == str && buf[..2 * i] == buf[..];
  }

  lemma {:induction false} VersionOfHeader(version: nat, content: seq<byte>)
    requires version < 0x1_0000_0000
    ensures VersionOf(Header(version) + content) == version
  {
  }

  lemma {:induction false} FourParts(a: int, b: int, c: int, d: int)
    requires 0 <= a < 0x100 && 0 <= b < 0x100 && 0 <= c < 0x100 && 0 <= d < 0x100
    ensures var v := a + b * 0x100 + c * 0x1_0000 + d * 0x100_0000;
            v % 0x100 == a && v / 0x100 % 0x100 == b && v / 0x1_0000 % 0x100 == c && v / 0x100_0000 == d
  {
    var v := a + b * 0x100 + c * 0x1_0000 + d * 0x100_0000;
    assert v / 0x100 == b + c * 0x100 + d * 0x1_0000;
    assert v / 0x1_0000 == c + d * 0x100;
  }

  // Any four bytes are the header of the version they hold, the low byte first.
  lemma {:induction false} HeaderOfVersion(data: seq<byte>)
    requires |data| >= HEADER
    ensures Header(VersionOf(data)) == data[..HEADER]
    ensures VersionOf(data) % 0x100 == data[0] as nat && VersionOf(data) / 0x100_0000 == data[3] as nat
  {
    FourParts(data[0] as int, data[1] as int, data[2] as int, data[3] as int);
  }

  lemma {:induction false} UnitsOfBytes(str: seq<unit>)
    ensures Units(Bytes(str)) == str
  {
    if str != [] {
      assert Bytes(str)[2..] == Bytes(str[1..]);
      UnitsOfBytes(str[1..]);
    }
  }

  lemma {:induction false} UnitsAppend(a: seq<byte>, b: seq<byte>)
    requires |a| % 2 == 0 && |b| % 2 == 0
    ensures Units(a + b) == Units(a) + Units(b)
  {
    if a == [] {
      assert a + b == b;
    } else {
      assert (a + b)[2..] == a[2..] + b;
      UnitsAppend(a[2..], b);
    }
  }

  // What a service reads back is the string it wrote and the version the store gave it.
  lemma {:induction false} StringRoundTrip(version: nat, str: seq<unit>)
    requires version < 0x1_0000_0000
    ensures Ab2Str(Header(version) + Bytes(str)) == str
    ensures VersionOf(Header(version) + Bytes(str)) == version
  {
    UnitsAppend(Header(version), Bytes(str));
    UnitsOfBytes(str);
    VersionOfHeader(version, Bytes(str));
    assert |Units(Header(version))| == 2;
  }
}
