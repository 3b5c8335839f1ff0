/**
 Which bytes carry a server name (server/src/tls_passthrough.rs): the exact shape of a buffer for
 which the scanner finds one, layer by layer. Everything after the name is free, so the shape is
 wider than that of a well-formed hello; everything before it is not.
 */
module HelloShapes {
  import opened Prelude
  import opened Bytes
  import opened ClientHello

  // ---------------------------------------------------------------- lengths

  lemma Be16Of(s: seq<byte>)
    requires |s| == 2
    ensures Be16(U16(s, 0)) == s
  {
  }

  lemma Be24Of(s: seq<byte>)
    requires |s| == 3
    ensures U24(s, 0) < 16777216 && Be24(U24(s, 0)) == s
  {
    var n := U24(s, 0);
    assert n / 256 == s[0] as int * 256 + s[1] as int;
  }

  // ---------------------------------------------------------------- the name list

  ghost predicate OtherNames(names: seq<Name>) {
    forall i | 0 <= i < |names| :: names[i].kind != 0 && |names[i].bytes| < 65536
  }

  ghost predicate ListShape(l: seq<byte>, x: seq<byte>, names: seq<Name>, tail: seq<byte>) {
    OtherNames(names) && |x| < 65536 && l == NameBytes(names) + ([0] + Be16(|x|) + x + tail)
  }

  /** Names of other kinds, and then the host name. */
  ghost predicate ListHas(l: seq<byte>, x: seq<byte>) {
    exists names, tail :: ListShape(l, x, names, tail)
  }

  lemma HostAt(x: seq<byte>, tail: seq<byte>)
    requires |x| < 65536
    ensures NameSni([0] + Be16(|x|) + x + tail) == Found(x)
  {
    var l := [0] + Be16(|x|) + x + tail;
    assert U16(l, 1) == |x| && l[3..3 + |x|] == x;
  }

  lemma NameSkipped(n: Name, rest: seq<byte>)
    requires n.kind != 0 && |n.bytes| < 65536
    ensures NameSni([n.kind] + Be16(|n.bytes|) + n.bytes + rest) == NameSni(rest)
  {
    var l := [n.kind] + Be16(|n.bytes|) + n.bytes + rest;
    assert U16(l, 1) == |n.bytes| && l[3 + |n.bytes|..] == rest;
  }

  lemma {:induction false} ListFinds(names: seq<Name>, rest: seq<byte>)
    requires OtherNames(names)
    ensures NameSni(NameBytes(names) + rest) == NameSni(rest)
  {
    if names == [] {
      assert NameBytes(names) + rest == rest;
    } else {
      ListFinds(names[1..], rest);
      FirstName(names, rest);
      NameSkipped(names[0], NameBytes(names[1..]) + rest);
    }
  }

  lemma FirstName(names: seq<Name>, rest: seq<byte>)
    requires names != [] && |names[0].bytes| < 65536
    ensures var n := names[0];
      NameBytes(names) + rest == [n.kind] + Be16(|n.bytes|) + n.bytes + (NameBytes(names[1..]) + rest)
  {
  }

  /** A host name in front. */
  lemma HostShape(l: seq<byte>, len: nat)
    requires |l| >= 3 + len && l[0] == 0 && U16(l, 1) == len
    ensures ListShape(l, l[3..3 + len], [], l[3 + len..])
  {
    Be16Of(l[1..3]);
    assert l == [l[0]] + l[1..3] + l[3..3 + len] + l[3 + len..];
  }

  /** Another name in front of such a list. */
  lemma NamePrefixed(l: seq<byte>, len: nat, x: seq<byte>, more: seq<Name>, tail: seq<byte>)
    requires |l| >= 3 + len && l[0] != 0 && U16(l, 1) == len && ListShape(l[3 + len..], x, more, tail)
    ensures ListShape(l, x, [Name(l[0], l[3..3 + len])] + more, tail)
  {
    var n := Name(l[0], l[3..3 + len]);
    var names := [n] + more;
    Be16Of(l[1..3]);
    assert names[1..] == more;
    assert NameBytes(names) == [n.kind] + Be16(|n.bytes|) + n.bytes + NameBytes(more);
    assert l == [l[0]] + l[1..3] + l[3..3 + len] + l[3 + len..];
  }

  /** A list read as far as its host name. */
  lemma {:induction false} ListParses(l: seq<byte>, x: seq<byte>) returns (names: seq<Name>, tail: seq<byte>)
    requires NameSni(l) == Found(x)
    ensures ListShape(l, x, names, tail)
    decreases |l|
  {
    var len := U16(l, 1);
    if l[0] == 0 {
      HostShape(l, len);
      names, tail := [], l[3 + len..];
    } else {
      var more;
      more, tail := ListParses(l[3 + len..], x);
      NamePrefixed(l, len, x, more, tail);
      names := [Name(l[0], l[3..3 + len])] + more;
    }
  }

  lemma ListExactly(l: seq<byte>, x: seq<byte>)
    ensures NameSni(l) == Found(x) <==> ListHas(l, x)
  {
    if NameSni(l) == Found(x) {
      var names, tail := ListParses(l, x);
      assert ListHas(l, x);
    }
    if names, tail :| ListShape(l, x, names, tail) {
      ListFinds(names, [0] + Be16(|x|) + x + tail);
      HostAt(x, tail);
    }
  }

  // ---------------------------------------------------------------- the server_name extension

  ghost predicate DataShape(d: seq<byte>, list: seq<byte>, tail: seq<byte>) {
    |list| < 65536 && d == Be16(|list|) + list + tail
  }

  /** A list with its length, and the list has the name. */
  ghost predicate DataHas(d: seq<byte>, x: seq<byte>) {
    exists list, tail :: DataShape(d, list, tail) && ListHas(list, x)
  }

  lemma DataRead(list: seq<byte>, tail: seq<byte>)
    requires |list| < 65536
    ensures NamesSni(Be16(|list|) + list + tail) == NameSni(list)
  {
    var d := Be16(|list|) + list + tail;
    assert U16(d, 0) == |list| && d[2..2 + |list|] == list;
  }

  lemma DataExactly(d: seq<byte>, x: seq<byte>)
    ensures NamesSni(d) == Found(x) <==> DataHas(d, x)
  {
    if NamesSni(d) == Found(x) {
      var list, tail := d[2..2 + U16(d, 0)], d[2 + U16(d, 0)..];
      Be16Of(d[..2]);
      assert d == d[..2] + list + tail;
      assert NameSni(list) == Found(x);
      ListExactly(list, x);
      assert DataShape(d, list, tail) && DataHas(d, x);
    }
    if list, tail :| DataShape(d, list, tail) && ListHas(list, x) {
      DataRead(list, tail);
      ListExactly(list, x);
    }
  }

  // ---------------------------------------------------------------- the extensions

  ghost predicate OtherExtensions(es: seq<Extension>) {
    forall i | 0 <= i < |es| :: es[i].OtherExtension? && ExtensionFits(es[i])
  }

  ghost predicate ExtensionShape(e: seq<byte>, es: seq<Extension>, data: seq<byte>, tail: seq<byte>) {
    && OtherExtensions(es) && ExtensionsFit(es) && |data| < 65536
    && e == ExtensionBytes(es) + (Be16(0) + Be16(|data|) + data + tail)
  }

  /** Other extensions, and then a server_name extension that has the name. */
  ghost predicate ExtensionsHave(e: seq<byte>, x: seq<byte>) {
    exists es, data, tail :: ExtensionShape(e, es, data, tail) && DataHas(data, x)
  }

  lemma ServerNameAt(data: seq<byte>, tail: seq<byte>)
    requires |data| < 65536
    ensures ExtensionSni(Be16(0) + Be16(|data|) + data + tail) == NamesSni(data)
  {
    var e := Be16(0) + Be16(|data|) + data + tail;
    assert U16(e, 0) == 0 && U16(e, 2) == |data| && e[4..4 + |data|] == data;
  }

  lemma OtherSkipped(kind: nat, data: seq<byte>, rest: seq<byte>)
    requires 0 < kind < 65536 && |data| < 65536
    ensures ExtensionSni(Be16(kind) + Be16(|data|) + data + rest) == ExtensionSni(rest)
  {
    var e := Be16(kind) + Be16(|data|) + data + rest;
    assert U16(e, 0) == kind && U16(e, 2) == |data| && e[4 + |data|..] == rest;
  }

  lemma {:induction false} ExtensionsFind(es: seq<Extension>, rest: seq<byte>)
    requires OtherExtensions(es) && ExtensionsFit(es)
    ensures ExtensionSni(ExtensionBytes(es) + rest) == ExtensionSni(rest)
  {
    if es == [] {
      assert ExtensionBytes(es) + rest == rest;
    } else {
      var more := ExtensionBytes(es[1..]);
      ExtensionsFind(es[1..], rest);
      assert ExtensionFits(es[0]);
      OtherSkipped(es[0].kind, es[0].data, more + rest);
      assert ExtensionBytes(es) + rest == Be16(es[0].kind) + Be16(|es[0].data|) + es[0].data + (more + rest);
    }
  }

  /** Extensions read as far as the first server_name, which there is if a name is found. */
  lemma {:induction false} ExtensionsParse(e: seq<byte>, x: seq<byte>)
    returns (es: seq<Extension>, data: seq<byte>, tail: seq<byte>)
    requires ExtensionSni(e) == Found(x)
    ensures ExtensionShape(e, es, data, tail) && NamesSni(data) == Found(x)
    decreases |e|
  {
    var kind, len := U16(e, 0), U16(e, 2);
    Be16Of(e[..2]);
    Be16Of(e[2..4]);
    assert Be16(kind) == e[..2] && Be16(len) == e[2..4];
    if kind == 0 {
      es, data, tail := [], e[4..4 + len], e[4 + len..];
      assert e == e[..2] + e[2..4] + data + tail;
    } else {
      var other := OtherExtension(kind, e[4..4 + len]);
      var more;
      more, data, tail := ExtensionsParse(e[4 + len..], x);
      es := [other] + more;
      Prefixed(e, other, more, data, tail);
    }
  }

  lemma Prefixed(e: seq<byte>, other: Extension, more: seq<Extension>, data: seq<byte>, tail: seq<byte>)
    requires other.OtherExtension? && ExtensionFits(other) && |e| >= 4 + |other.data|
    requires e[..2] == Be16(other.kind) && e[2..4] == Be16(|other.data|) && e[4..4 + |other.data|] == other.data
    requires ExtensionShape(e[4 + |other.data|..], more, data, tail)
    ensures ExtensionShape(e, [other] + more, data, tail)
  {
    var es := [other] + more;
    assert es[1..] == more;
    forall i | 0 <= i < |es| ensures es[i].OtherExtension? && ExtensionFits(es[i]) {
      if i > 0 {
        assert es[i] == more[i - 1] && ExtensionFits(more[i - 1]);
      }
    }
    assert e == e[..2] + e[2..4] + other.data + e[4 + |other.data|..];
  }

  lemma ExtensionsExactly(e: seq<byte>, x: seq<byte>)
    ensures ExtensionSni(e) == Found(x) <==> ExtensionsHave(e, x)
  {
    if ExtensionSni(e) == Found(x) {
      var es, data, tail := ExtensionsParse(e, x);
      DataExactly(data, x);
      assert ExtensionsHave(e, x);
    }
    if es, data, tail :| ExtensionShape(e, es, data, tail) && DataHas(data, x) {
      ExtensionsFind(es, Be16(0) + Be16(|data|) + data + tail);
      ServerNameAt(data, tail);
      DataExactly(data, x);
    }
  }

  // ---------------------------------------------------------------- the hello

  /** The fields in front of the extensions, and how many bytes the extensions have. */
  datatype Fields = Fields(
    versionAndRandom: seq<byte>,
    sessionId: seq<byte>,
    cipherSuites: seq<byte>,
    compression: seq<byte>,
    extensions: seq<byte>,
    tail: seq<byte>)

  ghost predicate FieldsFit(f: Fields) {
    && |f.versionAndRandom| == 34 && |f.sessionId| < 256 && |f.cipherSuites| < 65536
    && |f.compression| < 256 && |f.extensions| < 65536
  }

  ghost function FieldBytes(f: Fields): seq<byte>
    requires FieldsFit(f)
  {
    f.versionAndRandom
    + ([|f.sessionId|] + f.sessionId
       + (Be16(|f.cipherSuites|) + f.cipherSuites
          + ([|f.compression|] + f.compression
             + (Be16(|f.extensions|) + f.extensions + f.tail))))
  }

  ghost predicate BodyHas(h: seq<byte>, x: seq<byte>) {
    exists f :: FieldsFit(f) && h == FieldBytes(f) && ExtensionsHave(f.extensions, x)
  }

  lemma BodyRead(f: Fields)
    requires FieldsFit(f)
    ensures HelloSni(FieldBytes(f)) == ExtensionSni(f.extensions)
  {
    var h3 := Be16(|f.extensions|) + f.extensions + f.tail;
    var h2 := [|f.compression|] + f.compression + h3;
    var h1 := Be16(|f.cipherSuites|) + f.cipherSuites + h2;
    var h0 := [|f.sessionId|] + f.sessionId + h1;
    assert FieldBytes(f)[34..] == h0;
    Skip8(f.sessionId, h1);
    Skip16(f.cipherSuites, h2);
    Skip8(f.compression, h3);
    BlockRead(f.extensions, f.tail);
  }

  lemma BlockRead(extensions: seq<byte>, tail: seq<byte>)
    requires |extensions| < 65536
    ensures ExtensionsSni(Be16(|extensions|) + extensions + tail) == ExtensionSni(extensions)
  {
    var b := Be16(|extensions|) + extensions + tail;
    assert U16(b, 0) == |extensions| && b[2..2 + |extensions|] == extensions;
  }

  lemma Field8Of(s: seq<byte>) returns (field: seq<byte>)
    requires Field8(s).Some?
    ensures |field| < 256 && s == [|field|] + field + Field8(s).value
  {
    field := s[1..1 + s[0]];
  }

  lemma Field16Of(s: seq<byte>) returns (field: seq<byte>)
    requires Field16(s).Some?
    ensures |field| < 65536 && s == Be16(|field|) + field + Field16(s).value
  {
    field := s[2..2 + U16(s, 0)];
    Be16Of(s[..2]);
    assert s == s[..2] + field + s[2 + U16(s, 0)..];
  }

  lemma ExtensionBlockOf(s: seq<byte>) returns (exts: seq<byte>, tail: seq<byte>)
    requires ExtensionsSni(s).Found?
    ensures |exts| < 65536 && s == Be16(|exts|) + exts + tail && ExtensionsSni(s) == ExtensionSni(exts)
  {
    exts, tail := s[2..2 + U16(s, 0)], s[2 + U16(s, 0)..];
    Be16Of(s[..2]);
    assert s == s[..2] + exts + tail;
  }

  lemma BodyParses(h: seq<byte>, x: seq<byte>) returns (f: Fields)
    requires HelloSni(h) == Found(x)
    ensures FieldsFit(f) && h == FieldBytes(f) && ExtensionSni(f.extensions) == Found(x)
  {
    var h0 := h[34..];
    var h1 := Field8(h0).value;
    var h2 := Field16(h1).value;
    var h3 := Field8(h2).value;
    f := FieldsOf(h[..34], h0, h1, h2, h3);
    assert h == h[..34] + h0;
  }

  lemma FieldsOf(front: seq<byte>, h0: seq<byte>, h1: seq<byte>, h2: seq<byte>, h3: seq<byte>) returns (f: Fields)
    requires |front| == 34 && Field8(h0) == Some(h1) && Field16(h1) == Some(h2) && Field8(h2) == Some(h3)
    requires ExtensionsSni(h3).Found?
    ensures FieldsFit(f) && FieldBytes(f) == front + h0 && ExtensionSni(f.extensions) == ExtensionsSni(h3)
  {
    var sid := Field8Of(h0);
    var cs := Field16Of(h1);
    var cm := Field8Of(h2);
    var exts, tail := ExtensionBlockOf(h3);
    f := Fields(front, sid, cs, cm, exts, tail);
  }

  lemma BodyExactly(h: seq<byte>, x: seq<byte>)
    ensures HelloSni(h) == Found(x) <==> BodyHas(h, x)
  {
    if HelloSni(h) == Found(x) {
      var f := BodyParses(h, x);
      ExtensionsExactly(f.extensions, x);
      assert BodyHas(h, x);
    }
    if f :| FieldsFit(f) && h == FieldBytes(f) && ExtensionsHave(f.extensions, x) {
      BodyRead(f);
      ExtensionsExactly(f.extensions, x);
    }
  }

  // ---------------------------------------------------------------- the record

  ghost predicate RecordShape(buf: seq<byte>, version: seq<byte>, body: seq<byte>, rest: seq<byte>, after: seq<byte>) {
    && |version| == 2 && 4 + |body| + |rest| < 65536
    && buf == [0x16] + version + Be16(4 + |body| + |rest|) + ([0x01] + Be24(|body|) + body + rest) + after
  }

  /** A handshake record whose first message is a ClientHello that has the name. */
  ghost predicate RecordHas(buf: seq<byte>, x: seq<byte>) {
    exists version, body, rest, after :: RecordShape(buf, version, body, rest, after) && BodyHas(body, x)
  }

  lemma ShapeRead(buf: seq<byte>, version: seq<byte>, body: seq<byte>, rest: seq<byte>, after: seq<byte>)
    requires RecordShape(buf, version, body, rest, after)
    ensures SniOf(buf) == HelloSni(body)
  {
    var n, m := Be16(4 + |body| + |rest|), Be24(|body|);
    var r: seq<byte> := [0x16] + version + n + ([0x01] + m + body + rest);
    RecordPieces(version, n, m, body, rest);
    assert U16(n, 0) == 4 + |body| + |rest|;
    Be24Value(|body|);
    RecordRead(r, body, after);
  }

  lemma RecordParses(buf: seq<byte>, x: seq<byte>)
    returns (version: seq<byte>, body: seq<byte>, rest: seq<byte>, after: seq<byte>)
    requires SniOf(buf) == Found(x)
    ensures RecordShape(buf, version, body, rest, after) && HelloSni(body) == Found(x)
  {
    var end := RecordEnd(buf);
    var record := buf[..end];
    var len := U24(record, 6);
    version, body, rest, after := buf[1..3], record[9..9 + len], record[9 + len..], buf[end..];
    Be16Of(buf[3..5]);
    Be24Of(record[6..9]);
    assert Be16(4 + |body| + |rest|) == buf[3..5];
    assert Be24(|body|) == record[6..9];
    Assembled(buf, record, len);
  }

  lemma Assembled(buf: seq<byte>, record: seq<byte>, len: nat)
    requires 9 + len <= |record| <= |buf| && record == buf[..|record|] && record[0] == 0x16 && record[5] == 0x01
    ensures buf == [0x16] + buf[1..3] + buf[3..5]
      + ([0x01] + record[6..9] + record[9..9 + len] + record[9 + len..]) + buf[|record|..]
  {
    assert record == [record[0]] + record[1..3] + record[3..5]
      + ([record[5]] + record[6..9] + record[9..9 + len] + record[9 + len..]);
    assert buf == record + buf[|record|..];
  }

  /**
   Exactly: a buffer has a server name if and only if it begins with a handshake record whose
   first message is a ClientHello with that name, as its shape says down to the last byte before it.
   */
  lemma FoundExactly(buf: seq<byte>, x: seq<byte>)
    ensures SniOf(buf) == Found(x) <==> RecordHas(buf, x)
  {
    if SniOf(buf) == Found(x) {
      var version, body, rest, after := RecordParses(buf, x);
      BodyExactly(body, x);
      assert RecordHas(buf, x);
    }
    if version, body, rest, after :| RecordShape(buf, version, body, rest, after) && BodyHas(body, x) {
      ShapeRead(buf, version, body, rest, after);
      BodyExactly(body, x);
    }
  }
}
