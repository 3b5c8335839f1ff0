/**
 The server name in a TLS ClientHello (server/src/tls_passthrough.rs).

 `SniOf` reads the structure layer by layer, each on the bytes of the layer above: record
 (section 5.1 of RFC 8446), handshake message, hello (section 4.1.2), extensions, server
 name list (section 3 of RFC 6066). The scanner, one cursor over the whole buffer, computes
 the same; and it recovers the server name of every well-formed single-record hello.
 */
module ClientHello {
  import opened Prelude
  import opened Bytes

  datatype Sni =
    | Found(name: seq<byte>)
    | Absent
    | NeedMore
    | NotTls

  // ---------------------------------------------------------------- the layers

  /** Where the first record ends. */
  function RecordEnd(buf: seq<byte>): nat
    requires |buf| >= 5
  {
    5 + U16(buf, 3)
  }

  function SniOf(buf: seq<byte>): Sni {
    if |buf| < 5 then NeedMore
    else if buf[0] != 0x16 then NotTls
    else if |buf| < RecordEnd(buf) then NeedMore
    else RecordSni(buf[..RecordEnd(buf)])
  }

  /** One whole record, with its header. */
  function RecordSni(record: seq<byte>): (r: Sni)
    requires |record| >= 5
    ensures r != NeedMore
  {
    if |record| < 9 || record[5] != 0x01 then NotTls
    else
      var end := 9 + U24(record, 6);
      if end > |record| then NotTls else HelloSni(record[9..end])
  }

  /** The body of a ClientHello: version and random, then four length-prefixed fields. */
  function HelloSni(h: seq<byte>): (r: Sni)
    ensures r != NeedMore
  {
    if |h| < 34 then NotTls
    else
      match Field8(h[34..])
      case None => NotTls
      case Some(h1) =>
        match Field16(h1)
        case None => NotTls
        case Some(h2) =>
          match Field8(h2)
          case None => NotTls
          case Some(h3) => ExtensionsSni(h3)
  }

  /** What follows a field with a length of one byte; nothing if it does not fit. */
  function Field8(s: seq<byte>): Option<seq<byte>> {
    if |s| < 1 || 1 + s[0] > |s| then None else Some(s[1 + s[0]..])
  }

  function Field16(s: seq<byte>): Option<seq<byte>> {
    if |s| < 2 || 2 + U16(s, 0) > |s| then None else Some(s[2 + U16(s, 0)..])
  }

  function ExtensionsSni(s: seq<byte>): (r: Sni)
    ensures r != NeedMore
  {
    if |s| < 2 then Absent
    else if 2 + U16(s, 0) > |s| then NotTls
    else ExtensionSni(s[2..2 + U16(s, 0)])
  }

  /** The extensions one after the other, up to the first server_name. */
  function ExtensionSni(e: seq<byte>): (r: Sni)
    ensures r != NeedMore
    decreases |e|
  {
    if |e| < 4 then Absent
    else
      var len := U16(e, 2);
      if 4 + len > |e| then NotTls
      else if U16(e, 0) == 0 then NamesSni(e[4..4 + len])
      else ExtensionSni(e[4 + len..])
  }

  function NamesSni(d: seq<byte>): (r: Sni)
    ensures r != NeedMore
  {
    if |d| < 2 then Absent
    else if 2 + U16(d, 0) > |d| then NotTls
    else NameSni(d[2..2 + U16(d, 0)])
  }

  /** The names one after the other, up to the first host name. */
  function NameSni(l: seq<byte>): (r: Sni)
    ensures r != NeedMore
    decreases |l|
  {
    if |l| < 3 then Absent
    else
      var len := U16(l, 1);
      if 3 + len > |l| then NotTls
      else if l[0] == 0 then Found(l[3..3 + len])
      else NameSni(l[3 + len..])
  }

  // ---------------------------------------------------------------- stability

  /** A verdict, once reached, does not depend on the bytes that follow. */
  lemma VerdictStable(buf: seq<byte>, more: seq<byte>)
    requires !SniOf(buf).NeedMore?
    ensures SniOf(buf + more) == SniOf(buf)
  {
    if buf[0] == 0x16 {
      assert (buf + more)[..RecordEnd(buf)] == buf[..RecordEnd(buf)];
    }
  }

  // ---------------------------------------------------------------- the scanner

  /** The scanner of a buffer: one cursor, no copies but the name. */
  method ExtractSni(buf: seq<byte>) returns (r: Sni)
    ensures r == SniOf(buf)
  {
    if |buf| < 5 {
      return NeedMore;
    }
    if buf[0] != 0x16 {
      return NotTls;
    }
    var recordEnd := 5 + U16(buf, 3);
    if |buf| < recordEnd {
      return NeedMore;
    }
    if recordEnd < 9 || buf[5] != 0x01 {
      return NotTls;
    }
    var hello := 9;
    var end := hello + U24(buf, 6);
    if end > recordEnd {
      return NotTls;
    }
    Slice(buf, 0, recordEnd, 9, end);
    r := ScanHello(buf, hello, end);
  }

  /** Moves the cursor behind a field with a length of one byte, if it fits. */
  method SkipField8(buf: seq<byte>, start: nat, end: nat) returns (next: Option<nat>)
    requires start <= end <= |buf|
    ensures next.Some? ==> next.value <= end && Field8(buf[start..end]) == Some(buf[next.value..end])
    ensures next.None? ==> Field8(buf[start..end]) == None
  {
    var pos := start;
    if pos + 1 > end {
      return None;
    }
    var len: nat := buf[pos];
    pos := pos + 1;
    if pos + len > end {
      return None;
    }
    Slice(buf, start, end, 1 + len, end - start);
    next := Some(pos + len);
  }

  method SkipField16(buf: seq<byte>, start: nat, end: nat) returns (next: Option<nat>)
    requires start <= end <= |buf|
    ensures next.Some? ==> next.value <= end && Field16(buf[start..end]) == Some(buf[next.value..end])
    ensures next.None? ==> Field16(buf[start..end]) == None
  {
    var pos := start;
    if pos + 2 > end {
      return None;
    }
    var len := U16(buf, pos);
    assert U16(buf[start..end], 0) == len;
    pos := pos + 2;
    if pos + len > end {
      return None;
    }
    Slice(buf, start, end, 2 + len, end - start);
    next := Some(pos + len);
  }

  method ScanHello(buf: seq<byte>, hello: nat, end: nat) returns (r: Sni)
    requires hello <= end <= |buf|
    ensures r == HelloSni(buf[hello..end])
  {
    // client_version and random
    if hello + 34 > end {
      return NotTls;
    }
    Slice(buf, hello, end, 34, end - hello);
    var sessionId := SkipField8(buf, hello + 34, end);
    if sessionId == None {
      return NotTls;
    }
    var ciphers := SkipField16(buf, sessionId.value, end);
    if ciphers == None {
      return NotTls;
    }
    var compression := SkipField8(buf, ciphers.value, end);
    if compression == None {
      return NotTls;
    }
    r := ScanExtensions(buf, compression.value, end);
  }

  /** What one extension contributes, read at the cursor: it does not fit, it has the names, or it is skipped. */
  lemma ExtensionLong(buf: seq<byte>, pos: nat, end: nat)
    requires pos + 4 <= end <= |buf| && pos + 4 + U16(buf, pos + 2) > end
    ensures ExtensionSni(buf[pos..end]) == NotTls
  {
    var e := buf[pos..end];
    assert U16(e, 2) == U16(buf, pos + 2);
  }

  lemma ExtensionNames(buf: seq<byte>, pos: nat, end: nat, len: nat)
    requires pos + 4 <= end <= |buf| && len == U16(buf, pos + 2) && pos + 4 + len <= end && U16(buf, pos) == 0
    ensures ExtensionSni(buf[pos..end]) == NamesSni(buf[pos + 4..pos + 4 + len])
  {
    var e := buf[pos..end];
    assert U16(e, 0) == U16(buf, pos) && U16(e, 2) == len;
    Slice(buf, pos, end, 4, 4 + len);
  }

  lemma ExtensionSkipped(buf: seq<byte>, pos: nat, end: nat, len: nat)
    requires pos + 4 <= end <= |buf| && len == U16(buf, pos + 2) && pos + 4 + len <= end && U16(buf, pos) != 0
    ensures ExtensionSni(buf[pos..end]) == ExtensionSni(buf[pos + 4 + len..end])
  {
    var e := buf[pos..end];
    assert U16(e, 0) == U16(buf, pos) && U16(e, 2) == len;
    Slice(buf, pos, end, 4 + len, |e|);
  }

  /** One turn of the loop over the extensions: a verdict, or the place of the next one. */
  method ScanExtension(buf: seq<byte>, start: nat, extEnd: nat) returns (r: Option<Sni>, pos: nat)
    requires start + 4 <= extEnd <= |buf|
    ensures r.Some? ==> r.value == ExtensionSni(buf[start..extEnd])
    ensures r.None? ==> start < pos <= extEnd && ExtensionSni(buf[pos..extEnd]) == ExtensionSni(buf[start..extEnd])
  {
    pos := start;
    var extType := U16(buf, pos);
    var len := U16(buf, pos + 2);
    pos := pos + 4;
    if pos + len > extEnd {
      ExtensionLong(buf, start, extEnd);
      return Some(NotTls), pos;
    }
    if extType == 0 {
      ExtensionNames(buf, start, extEnd, len);
      var verdict := ScanNames(buf, pos, len);
      return Some(verdict), pos;
    }
    ExtensionSkipped(buf, start, extEnd, len);
    return None, pos + len;
  }

  method ScanExtensions(buf: seq<byte>, start: nat, end: nat) returns (r: Sni)
    requires start <= end <= |buf|
    ensures r == ExtensionsSni(buf[start..end])
  {
    ghost var s := buf[start..end];
    var pos := start;
    if pos + 2 > end {
      return Absent;
    }
    assert U16(s, 0) == U16(buf, start);
    var extEnd := pos + 2 + U16(buf, pos);
    pos := pos + 2;
    if extEnd > end {
      return NotTls;
    }
    Slice(buf, start, end, 2, 2 + U16(s, 0));
    r := ScanExtensionList(buf, pos, extEnd);
  }

  method ScanExtensionList(buf: seq<byte>, start: nat, extEnd: nat) returns (r: Sni)
    requires start <= extEnd <= |buf|
    ensures r == ExtensionSni(buf[start..extEnd])
  {
    var pos := start;
    while pos + 4 <= extEnd
      invariant start <= pos <= extEnd
      invariant ExtensionSni(buf[pos..extEnd]) == ExtensionSni(buf[start..extEnd])
      decreases extEnd - pos
    {
      var verdict, next := ScanExtension(buf, pos, extEnd);
      if verdict.Some? {
        return verdict.value;
      }
      pos := next;
    }
    r := Absent;
  }

  /** One name, read at the cursor. */
  lemma NameAt(buf: seq<byte>, p: nat, end: nat)
    requires p + 3 <= end <= |buf|
    ensures var len := U16(buf, p + 1);
      NameSni(buf[p..end]) ==
      if p + 3 + len > end then NotTls
      else if buf[p] == 0 then Found(buf[p + 3..p + 3 + len])
      else NameSni(buf[p + 3 + len..end])
  {
    var l, len := buf[p..end], U16(buf, p + 1);
    assert U16(l, 1) == len;
    if p + 3 + len <= end {
      Slice(buf, p, end, 3, 3 + len);
      Slice(buf, p, end, 3 + len, |l|);
    }
  }

  /** One turn of the loop over the names: a verdict, or the place of the next one. */
  method ScanName(buf: seq<byte>, start: nat, listEnd: nat) returns (r: Option<Sni>, p: nat)
    requires start + 3 <= listEnd <= |buf|
    ensures r.Some? ==> r.value == NameSni(buf[start..listEnd])
    ensures r.None? ==> start < p <= listEnd && NameSni(buf[p..listEnd]) == NameSni(buf[start..listEnd])
  {
    NameAt(buf, start, listEnd);
    p := start;
    var nameType := buf[p];
    var nameLen := U16(buf, p + 1);
    p := p + 3;
    if p + nameLen > listEnd {
      return Some(NotTls), p;
    }
    if nameType == 0 {
      return Some(Found(buf[p..p + nameLen])), p;
    }
    return None, p + nameLen;
  }

  method ScanNames(buf: seq<byte>, pos: nat, len: nat) returns (r: Sni)
    requires pos + len <= |buf|
    ensures r == NamesSni(buf[pos..pos + len])
  {
    ghost var d := buf[pos..pos + len];
    if len < 2 {
      return Absent;
    }
    var listLen := U16(buf, pos);
    assert U16(d, 0) == listLen;
    if 2 + listLen > len {
      return NotTls;
    }
    Slice(buf, pos, pos + len, 2, 2 + listLen);
    r := ScanNameList(buf, pos + 2, pos + 2 + listLen);
  }

  method ScanNameList(buf: seq<byte>, start: nat, listEnd: nat) returns (r: Sni)
    requires start <= listEnd <= |buf|
    ensures r == NameSni(buf[start..listEnd])
  {
    var p := start;
    while p + 3 <= listEnd
      invariant start <= p <= listEnd
      invariant NameSni(buf[p..listEnd]) == NameSni(buf[start..listEnd])
      decreases listEnd - p
    {
      var verdict, next := ScanName(buf, p, listEnd);
      if verdict.Some? {
        return verdict.value;
      }
      p := next;
    }
    r := Absent;
  }

  // ---------------------------------------------------------------- hellos and their bytes

  datatype Name = Name(kind: byte, bytes: seq<byte>)

  datatype Extension =
    | ServerName(names: seq<Name>)
    | OtherExtension(kind: nat, data: seq<byte>)

  datatype Hello = Hello(
    versionAndRandom: seq<byte>,
    sessionId: seq<byte>,
    cipherSuites: seq<byte>,
    compression: seq<byte>,
    extensions: Option<seq<Extension>>)

  ghost predicate NamesFit(names: seq<Name>) {
    (forall i | 0 <= i < |names| :: |names[i].bytes| < 65536) && |NameBytes(names)| + 2 < 65536
  }

  ghost predicate ExtensionFits(e: Extension) {
    match e
    case ServerName(names) => NamesFit(names)
    case OtherExtension(kind, data) => 0 < kind < 65536 && |data| < 65536
  }

  ghost predicate ExtensionsFit(es: seq<Extension>) {
    forall i | 0 <= i < |es| :: ExtensionFits(es[i])
  }

  ghost predicate HelloFits(h: Hello) {
    && |h.versionAndRandom| == 34 && |h.sessionId| < 256 && |h.cipherSuites| < 65536 && |h.compression| < 256
    && (h.extensions.Some? ==>
          ExtensionsFit(h.extensions.value) && |ExtensionBytes(h.extensions.value)| < 65536)
  }

  ghost function NameBytes(names: seq<Name>): seq<byte> {
    if names == [] then []
    else if |names[0].bytes| >= 65536 then []
    else [names[0].kind] + Be16(|names[0].bytes|) + names[0].bytes + NameBytes(names[1..])
  }

  ghost function DataBytes(e: Extension): seq<byte>
    requires ExtensionFits(e)
  {
    match e
    case ServerName(names) => Be16(|NameBytes(names)|) + NameBytes(names)
    case OtherExtension(_, data) => data
  }

  function KindOf(e: Extension): nat {
    match e
    case ServerName(_) => 0
    case OtherExtension(kind, _) => kind
  }

  ghost function ExtensionBytes(es: seq<Extension>): seq<byte>
    requires ExtensionsFit(es)
  {
    if es == [] then []
    else
      Be16(KindOf(es[0])) + Be16(|DataBytes(es[0])|) + DataBytes(es[0]) + ExtensionBytes(es[1..])
  }

  ghost function HelloBytes(h: Hello): seq<byte>
    requires HelloFits(h)
  {
    h.versionAndRandom
    + ([|h.sessionId|] + h.sessionId
       + (Be16(|h.cipherSuites|) + h.cipherSuites
          + ([|h.compression|] + h.compression
             + ExtensionBlock(h))))
  }

  ghost function ExtensionBlock(h: Hello): seq<byte>
    requires HelloFits(h)
  {
    match h.extensions
    case None => []
    case Some(es) => Be16(|ExtensionBytes(es)|) + ExtensionBytes(es)
  }

  /** The hello as the first message of a handshake record, which may hold more after it. */
  ghost function RecordBytes(h: Hello, version: nat, rest: seq<byte>): seq<byte>
    requires HelloFits(h) && version < 65536 && 4 + |HelloBytes(h)| + |rest| < 65536
  {
    [0x16] + Be16(version) + Be16(4 + |HelloBytes(h)| + |rest|)
    + ([0x01] + Be24(|HelloBytes(h)|) + HelloBytes(h) + rest)
  }

  // ---------------------------------------------------------------- completeness

  /** The first host name of a list of names. */
  function FirstHost(names: seq<Name>): Sni {
    if names == [] then Absent
    else if names[0].kind == 0 then Found(names[0].bytes)
    else FirstHost(names[1..])
  }

  /** The first host name of the first server_name extension. */
  function FirstServerName(es: seq<Extension>): Sni {
    if es == [] then Absent
    else if es[0].ServerName? then FirstHost(es[0].names)
    else FirstServerName(es[1..])
  }

  function Expected(h: Hello): Sni {
    match h.extensions
    case None => Absent
    case Some(es) => FirstServerName(es)
  }

  lemma {:induction false} NameSniComplete(names: seq<Name>)
    requires forall i | 0 <= i < |names| :: |names[i].bytes| < 65536
    ensures NameSni(NameBytes(names)) == FirstHost(names)
  {
    if names != [] {
      var n, rest := names[0], NameBytes(names[1..]);
      var l := NameBytes(names);
      assert l == [n.kind] + Be16(|n.bytes|) + n.bytes + rest;
      assert l[3..3 + |n.bytes|] == n.bytes;
      assert l[3 + |n.bytes|..] == rest;
      NameSniComplete(names[1..]);
    }
  }

  lemma {:induction false} ExtensionSniComplete(es: seq<Extension>)
    requires ExtensionsFit(es)
    ensures ExtensionSni(ExtensionBytes(es)) == FirstServerName(es)
  {
    if es != [] {
      var data, rest := DataBytes(es[0]), ExtensionBytes(es[1..]);
      var e := ExtensionBytes(es);
      assert ExtensionFits(es[0]);
      assert e == Be16(KindOf(es[0])) + Be16(|data|) + data + rest;
      assert U16(e, 0) == KindOf(es[0]) && U16(e, 2) == |data|;
      assert e[4..4 + |data|] == data && e[4 + |data|..] == rest;
      if es[0].ServerName? {
        var names := NameBytes(es[0].names);
        assert data[2..2 + |names|] == names;
        NameSniComplete(es[0].names);
      } else {
        ExtensionSniComplete(es[1..]);
      }
    }
  }

  lemma Skip8(field: seq<byte>, rest: seq<byte>)
    requires |field| < 256
    ensures Field8([|field|] + field + rest) == Some(rest)
  {
    assert ([|field|] + field + rest)[1 + |field|..] == rest;
  }

  lemma Skip16(field: seq<byte>, rest: seq<byte>)
    requires |field| < 65536
    ensures Field16(Be16(|field|) + field + rest) == Some(rest)
  {
    assert (Be16(|field|) + field + rest)[2 + |field|..] == rest;
  }

  lemma ExtensionsSniComplete(h: Hello)
    requires HelloFits(h)
    ensures ExtensionsSni(ExtensionBlock(h)) == Expected(h)
  {
    if h.extensions.Some? {
      var e, s := ExtensionBytes(h.extensions.value), ExtensionBlock(h);
      assert U16(s, 0) == |e|;
      assert s[2..2 + |e|] == e;
      ExtensionSniComplete(h.extensions.value);
    }
  }

  lemma HelloSniComplete(h: Hello)
    requires HelloFits(h)
    ensures HelloSni(HelloBytes(h)) == Expected(h)
  {
    var h3 := ExtensionBlock(h);
    var h2 := [|h.compression|] + h.compression + h3;
    var h1 := Be16(|h.cipherSuites|) + h.cipherSuites + h2;
    var h0 := [|h.sessionId|] + h.sessionId + h1;
    assert HelloBytes(h)[34..] == h0;
    Skip8(h.sessionId, h1);
    Skip16(h.cipherSuites, h2);
    Skip8(h.compression, h3);
    ExtensionsSniComplete(h);
  }

  /** Where the pieces of a record are. */
  lemma RecordPieces(v: seq<byte>, n: seq<byte>, m: seq<byte>, hello: seq<byte>, rest: seq<byte>)
    requires |v| == 2 && |n| == 2 && |m| == 3
    ensures var r: seq<byte> := [0x16] + v + n + ([0x01] + m + hello + rest);
      && |r| == 9 + |hello| + |rest| && r[0] == 0x16 && r[5] == 0x01
      && U16(r, 3) == U16(n, 0) && U24(r, 6) == U24(m, 0)
      && r[9..9 + |hello|] == hello
  {
  }

  /** The headers of a record, as they are read back. */
  lemma RecordHeaders(r: seq<byte>, hello: seq<byte>, version: nat, rest: seq<byte>)
    requires version < 65536 && 4 + |hello| + |rest| < 65536
    requires r == [0x16] + Be16(version) + Be16(4 + |hello| + |rest|) + ([0x01] + Be24(|hello|) + hello + rest)
    ensures |r| == 9 + |hello| + |rest| && r[0] == 0x16 && r[5] == 0x01
    ensures RecordEnd(r) == |r| && U24(r, 6) == |hello| && r[9..9 + |hello|] == hello
  {
    var n, m := Be16(4 + |hello| + |rest|), Be24(|hello|);
    RecordPieces(Be16(version), n, m, hello, rest);
    assert U16(n, 0) == 4 + |hello| + |rest|;
    Be24Value(|hello|);
  }

  /**
   Completeness: the server name of every well-formed hello that fits one record, whatever
   its other fields, whatever follows it in the record and whatever follows the record.
   */
  lemma SniComplete(h: Hello, version: nat, rest: seq<byte>, after: seq<byte>)
    requires HelloFits(h) && version < 65536 && 4 + |HelloBytes(h)| + |rest| < 65536
    ensures SniOf(RecordBytes(h, version, rest) + after) == Expected(h)
  {
    RecordHeaders(RecordBytes(h, version, rest), HelloBytes(h), version, rest);
    HelloSniComplete(h);
    RecordRead(RecordBytes(h, version, rest), HelloBytes(h), after);
  }

  lemma RecordRead(r: seq<byte>, hello: seq<byte>, after: seq<byte>)
    requires |r| >= 9 + |hello| && r[0] == 0x16 && r[5] == 0x01 && RecordEnd(r) == |r|
    requires U24(r, 6) == |hello| && r[9..9 + |hello|] == hello
    ensures SniOf(r + after) == HelloSni(hello)
  {
    assert r[..|r|] == r;
    VerdictStable(r, after);
  }
}
