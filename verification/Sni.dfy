/**
 The TLS record reader and ClientHello walker of the egress gateway: the bytes
 of the first record are kept for replay and its server name is looked up.
 Messages follow section 4.1.2 of RFC 8446, the extension section 3 of RFC 6066.
 */
module Sni {
  import opened Bytes
  import opened Options

  datatype Error =
    | ShortRead | NotHandshake | BadRecordLength
    | NotClientHello | Truncated | NoExtensions | BadSniExt | BadSniLen | NoSni

  datatype Result = Ok(name: bytes) | Err(error: Error)

  // ---------------------------------------------------------------- parser

  function Skip(p: bytes, n: nat): Option<bytes> {
    if |p| < n then None else Some(p[n..])
  }

  /** Skips a vector preceded by its length in one byte. */
  function Skip8(p: bytes): Option<bytes> {
    if |p| < 1 then None else Skip(p[1..], p[0] as nat)
  }

  /** Skips a vector preceded by its length in two bytes. */
  function Skip16(p: bytes): Option<bytes> {
    if |p| < 2 then None else Skip(p[2..], U16(p))
  }

  function Clip(p: bytes, n: nat): bytes {
    if |p| > n then p[..n] else p
  }

  /** Where the extensions of a hello are, or why they cannot be reached. */
  datatype Located = At(ext: bytes) | Failed(error: Error)

  function Locate(b: bytes): Located {
    if |b| < 4 || b[0] != 0x01 then Failed(NotClientHello) else
    match Skip(b[4..], 34)
    case None => Failed(Truncated)
    case Some(p1) =>
      match Skip8(p1)
      case None => Failed(Truncated)
      case Some(p2) =>
        match Skip16(p2)
        case None => Failed(Truncated)
        case Some(p3) =>
          match Skip8(p3)
          case None => Failed(Truncated)
          case Some(p4) => if |p4| < 2 then Failed(NoExtensions) else At(p4)
  }

  /** What the source computes, as a function of the message. */
  function Parse(b: bytes): Result {
    match Locate(b)
    case Failed(e) => Err(e)
    case At(p) => FindSni(Clip(p[2..], U16(p)))
  }

  function FindSni(ext: bytes): Result {
    if |ext| < 4 || |ext| - 4 < U16(ext[2..]) then Err(NoSni)
    else if U16(ext) != 0 then FindSni(ext[4 + U16(ext[2..])..])
    else HostName(ext[4..4 + U16(ext[2..])])
  }

  /** The server name of a server_name extension's data. */
  function HostName(data: bytes): Result {
    if |data| < 5 || data[2] != 0x00 then Err(BadSniExt)
    else if |data| < 5 + U16(data[3..]) then Err(BadSniLen)
    else Ok(data[5..5 + U16(data[3..])])
  }

  /** The `read` closure: on success v is the next n bytes and rest what follows. */
  method Read(p: bytes, n: nat) returns (v: bytes, rest: bytes, ok: bool)
    ensures ok <==> n <= |p|
    ensures ok ==> v == p[..n] && rest == p[n..]
    ensures !ok ==> rest == p
  {
    if |p| < n {
      return [], p, false;
    }
    return p[..n], p[n..], true;
  }

  /** The part of the walk before the extensions; every slice access is in bounds for every input. */
  method WalkPrelude(b: bytes) returns (r: Located)
    ensures r == Locate(b)
  {
    if |b| < 4 || b[0] != 0x01 {
      return Failed(NotClientHello);
    }
    var p := b[4..];
    var v, ok;
    v, p, ok := Read(p, 2 + 32);
    if !ok { return Failed(Truncated); }
    v, p, ok := Read(p, 1);
    if !ok { return Failed(Truncated); }
    v, p, ok := Read(p, v[0] as nat);
    if !ok { return Failed(Truncated); }
    v, p, ok := Read(p, 2);
    if !ok { return Failed(Truncated); }
    v, p, ok := Read(p, U16(v));
    if !ok { return Failed(Truncated); }
    v, p, ok := Read(p, 1);
    if !ok { return Failed(Truncated); }
    v, p, ok := Read(p, v[0] as nat);
    if !ok { return Failed(Truncated); }
    if |p| < 2 { return Failed(NoExtensions); }
    return At(p);
  }

  lemma FindNothing(ext: bytes)
    ensures |ext| < 4 ==> FindSni(ext) == Err(NoSni)
  {
  }

  /** The search in terms of the slices the loop takes. */
  lemma FindStep(ext: bytes)
    requires |ext| >= 4
    ensures var n, rest := U16(ext[2..4]), ext[4..];
            FindSni(ext) == if |rest| < n then Err(NoSni)
                            else if U16(ext[..2]) != 0 then FindSni(rest[n..])
                            else HostName(rest[..n])
  {
    var n, rest := U16(ext[2..4]), ext[4..];
    assert n == U16(ext[2..]) && U16(ext[..2]) == U16(ext);
    if |rest| >= n {
      assert rest[n..] == ext[4 + n..] && rest[..n] == ext[4..4 + n];
    }
  }

  lemma HostStep(data: bytes)
    ensures HostName(data) == if |data| < 5 || data[2] != 0x00 then Err(BadSniExt)
                              else if |data| < 5 + U16(data[3..5]) then Err(BadSniLen)
                              else Ok(data[5..5 + U16(data[3..5])])
  {
  }

  method ParseClientHello(b: bytes) returns (r: Result)
    ensures r == Parse(b)
  {
    var located := WalkPrelude(b);
    if located.Failed? {
      return Err(located.error);
    }
    var extTotal, p, _ := Read(located.ext, 2);
    var ext := p;
    if |ext| > U16(extTotal) {
      ext := ext[..U16(extTotal)];
    }
    hide Parse, Locate, FindSni, HostName, U16;
    FindNothing(ext);
    while |ext| >= 4
      invariant FindSni(ext) == Parse(b)
      decreases |ext|
    {
      FindStep(ext);
      var etype := U16(ext[..2]);
      var elen := U16(ext[2..4]);
      ext := ext[4..];
      if |ext| < elen {
        break;
      }
      var data := ext[..elen];
      ext := ext[elen..];
      FindNothing(ext);
      if etype != 0x0000 {
        continue;
      }
      HostStep(data);
      if |data| < 5 || data[2] != 0x00 {
        return Err(BadSniExt);
      }
      var nameLen := U16(data[3..5]);
      if |data| < 5 + nameLen {
        return Err(BadSniLen);
      }
      return Ok(data[5..5 + nameLen]);
    }
    return Err(NoSni);
  }

  // --------------------------------------------------------------- grammar

  datatype Extension = Extension(kind: nat, data: bytes) {
    predicate Valid() { kind < 65536 && |data| < 65536 }

    function Encode(): bytes
      requires Valid()
    {
      EncodeU16(kind) + EncodeU16(|data|) + data
    }
  }

  ghost predicate AllValid(exts: seq<Extension>) {
    forall i :: 0 <= i < |exts| ==> exts[i].Valid()
  }

  function EncodeAll(exts: seq<Extension>): bytes
    requires AllValid(exts)
  {
    if exts == [] then [] else exts[0].Encode() + EncodeAll(exts[1..])
  }

  function Vector8(v: bytes): bytes
    requires |v| < 256
  {
    [|v| as byte] + v
  }

  function Vector16(v: bytes): bytes
    requires |v| < 65536
  {
    EncodeU16(|v|) + v
  }

  /** Everything of a ClientHello that comes before its extensions. */
  datatype Prelude = Prelude(
    length: bytes, versionAndRandom: bytes, session: bytes, ciphers: bytes, compression: bytes)
  {
    predicate Valid() {
      |length| == 3 && |versionAndRandom| == 34 && |session| < 256 && |ciphers| < 65536 && |compression| < 256
    }

    function Encode(rest: bytes): bytes
      requires Valid()
    {
      [0x01] + length
      + (versionAndRandom + (Vector8(session) + (Vector16(ciphers) + (Vector8(compression) + rest))))
    }
  }

  /** The data of a server_name extension that starts with a host_name entry. */
  function HostEntry(listLength: bytes, name: bytes, more: bytes): bytes
    requires |listLength| == 2 && |name| < 65536
  {
    listLength + [0x00] + EncodeU16(|name|) + name + more
  }

  /** b is a hello whose first server_name extension names a host, whatever bytes come after that extension. */
  ghost predicate Names(b: bytes, name: bytes) {
    exists pre: Prelude, total: nat, before: seq<Extension>, listLength: bytes, more: bytes, tail: bytes ::
      NamesAs(b, name, pre, total, before, listLength, more, tail)
  }

  ghost predicate NamesAs(b: bytes, name: bytes, pre: Prelude, total: nat, before: seq<Extension>,
                          listLength: bytes, more: bytes, tail: bytes) {
    && pre.Valid()
    && total < 65536
    && AllValid(before)
    && (forall i :: 0 <= i < |before| ==> before[i].kind != 0)
    && |listLength| == 2
    && |name| + 5 + |more| < 65536
    && var sni := Extension(0, HostEntry(listLength, name, more));
       && |EncodeAll(before)| + |sni.Encode()| <= total
       && b == pre.Encode(EncodeU16(total) + (EncodeAll(before) + (sni.Encode() + tail)))
  }

  // --------------------------------------------- vectors: skip undoes encode

  lemma SkipAppend(v: bytes, rest: bytes)
    ensures Skip(v + rest, |v|) == Some(rest)
  {
    assert (v + rest)[|v|..] == rest;
  }

  lemma Skip8Vector(v: bytes, rest: bytes)
    requires |v| < 256
    ensures Skip8(Vector8(v) + rest) == Some(rest)
  {
    assert (Vector8(v) + rest)[1..] == v + rest;
    SkipAppend(v, rest);
  }

  lemma Skip16Vector(v: bytes, rest: bytes)
    requires |v| < 65536
    ensures Skip16(Vector16(v) + rest) == Some(rest)
  {
    assert Vector16(v) + rest == EncodeU16(|v|) + (v + rest);
    U16RoundTrip(|v|, v + rest);
    SkipAppend(v, rest);
  }

  lemma LocateEncoded(pre: Prelude, rest: bytes)
    requires pre.Valid()
    ensures Locate(pre.Encode(rest)) == if |rest| < 2 then Failed(NoExtensions) else At(rest)
  {
    var p3 := Vector8(pre.compression) + rest;
    var p2 := Vector16(pre.ciphers) + p3;
    var p1 := Vector8(pre.session) + p2;
    assert pre.Encode(rest)[4..] == pre.versionAndRandom + p1;
    SkipAppend(pre.versionAndRandom, p1);
    Skip8Vector(pre.session, p2);
    Skip16Vector(pre.ciphers, p3);
    Skip8Vector(pre.compression, rest);
  }

  lemma Vector8Of(p: bytes) returns (v: bytes)
    requires Skip8(p).Some?
    ensures |v| < 256 && p == Vector8(v) + Skip8(p).value
  {
    v := p[1..1 + p[0] as nat];
  }

  lemma Vector16Of(p: bytes) returns (v: bytes)
    requires Skip16(p).Some?
    ensures |v| < 65536 && p == Vector16(v) + Skip16(p).value
  {
    v := p[2..2 + U16(p)];
    U16Reencode(p);
  }

  /** Whatever parses past the compression methods has a prelude. */
  lemma PreludeOf(b: bytes) returns (pre: Prelude)
    requires Locate(b).At?
    ensures pre.Valid() && b == pre.Encode(Locate(b).ext)
  {
    hide Vector8, Vector16, Skip8, Skip16;
    var p1 := Skip(b[4..], 34).value;
    var p2 := Skip8(p1).value;
    var p3 := Skip16(p2).value;
    var session := Vector8Of(p1);
    var ciphers := Vector16Of(p2);
    var compression := Vector8Of(p3);
    pre := Prelude(b[1..4], b[4..38], session, ciphers, compression);
    assert b[4..] == b[4..38] + p1;
    assert b == [b[0]] + b[1..4] + b[4..];
  }

  // ------------------------------------------------------------ extensions

  lemma FindFirst(e: Extension, rest: bytes)
    requires e.Valid()
    ensures FindSni(e.Encode() + rest) == if e.kind != 0 then FindSni(rest) else HostName(e.data)
  {
    var ext := e.Encode() + rest;
    var n := |e.data|;
    assert ext == EncodeU16(e.kind) + (EncodeU16(n) + (e.data + rest));
    U16RoundTrip(e.kind, EncodeU16(n) + (e.data + rest));
    U16RoundTrip(n, e.data + rest);
    assert ext[2..] == EncodeU16(n) + (e.data + rest);
    assert ext[4 + n..] == rest;
    assert ext[4..4 + n] == e.data;
  }

  lemma {:induction false} FindPast(before: seq<Extension>, rest: bytes)
    requires AllValid(before)
    requires forall i :: 0 <= i < |before| ==> before[i].kind != 0
    ensures FindSni(EncodeAll(before) + rest) == FindSni(rest)
  {
    if before == [] {
      assert EncodeAll(before) + rest == rest;
    } else {
      assert EncodeAll(before) + rest == before[0].Encode() + (EncodeAll(before[1..]) + rest);
      FindFirst(before[0], EncodeAll(before[1..]) + rest);
      FindPast(before[1..], rest);
    }
  }

  lemma HostNameOfEntry(listLength: bytes, name: bytes, more: bytes)
    requires |listLength| == 2 && |name| < 65536
    ensures HostName(HostEntry(listLength, name, more)) == Ok(name)
  {
    var data := HostEntry(listLength, name, more);
    assert data[3..] == EncodeU16(|name|) + (name + more);
    U16RoundTrip(|name|, name + more);
    assert data[5..5 + |name|] == name;
  }

  lemma EntryOf(data: bytes) returns (listLength: bytes, name: bytes, more: bytes)
    requires HostName(data).Ok?
    ensures |listLength| == 2 && |name| < 65536
    ensures data == HostEntry(listLength, name, more) && HostName(data) == Ok(name)
  {
    var n := U16(data[3..]);
    listLength, name, more := data[..2], data[5..5 + n], data[5 + n..];
    U16Reencode(data[3..]);
    assert data[5..] == name + more;
    assert data == data[..2] + [data[2]] + data[3..];
  }

  lemma FirstOf(ext: bytes) returns (e: Extension, rest: bytes)
    requires |ext| >= 4 && |ext| - 4 >= U16(ext[2..])
    ensures e.Valid() && ext == e.Encode() + rest
    ensures e == Extension(U16(ext), ext[4..4 + U16(ext[2..])]) && rest == ext[4 + U16(ext[2..])..]
  {
    var n := U16(ext[2..]);
    e, rest := Extension(U16(ext), ext[4..4 + n]), ext[4 + n..];
    U16Reencode(ext);
    U16Reencode(ext[2..]);
    assert ext[2..][2..] == e.data + rest;
  }

  /** Inverts a successful search: the extensions skipped, the one found and what is left. */
  lemma {:induction false} FoundIn(ext: bytes) returns (before: seq<Extension>, sni: Extension, tail: bytes)
    requires FindSni(ext).Ok?
    ensures AllValid(before) && (forall i :: 0 <= i < |before| ==> before[i].kind != 0)
    ensures sni.kind == 0 && sni.Valid() && HostName(sni.data) == FindSni(ext)
    ensures ext == EncodeAll(before) + (sni.Encode() + tail)
    decreases |ext|
  {
    FoundFits(ext);
    var e, rest := FirstOf(ext);
    FoundStep(ext, e, rest);
    hide FindSni, HostName, EncodeAll, Extension.Encode, U16;
    if e.kind == 0 {
      before, sni, tail := [], e, rest;
      EncodeNone();
      assert [] + ext == ext;
    } else {
      before, sni, tail := FoundIn(rest);
      Prepend(e, before);
      Associate(e.Encode(), EncodeAll(before), sni.Encode() + tail);
      before := [e] + before;
    }
  }

  lemma FoundFits(ext: bytes)
    requires FindSni(ext).Ok?
    ensures |ext| >= 4 && |ext| - 4 >= U16(ext[2..])
  {
  }

  lemma FoundStep(ext: bytes, e: Extension, rest: bytes)
    requires |ext| >= 4 && |ext| - 4 >= U16(ext[2..])
    requires e == Extension(U16(ext), ext[4..4 + U16(ext[2..])]) && rest == ext[4 + U16(ext[2..])..]
    ensures FindSni(ext) == if e.kind == 0 then HostName(e.data) else FindSni(rest)
    ensures |rest| < |ext|
  {
  }

  lemma EncodeNone()
    ensures EncodeAll([]) == []
  {
  }

  lemma Prepend(e: Extension, before: seq<Extension>)
    requires e.Valid() && AllValid(before)
    ensures AllValid([e] + before) && EncodeAll([e] + before) == e.Encode() + EncodeAll(before)
  {
    assert ([e] + before)[1..] == before;
  }

  lemma Associate(a: bytes, b: bytes, c: bytes)
    ensures a + (b + c) == (a + b) + c
  {
  }

  // ---------------------------------------------------------- main results

  /** The parser accepts exactly the hellos that name a host, and returns that name. */
  lemma ParseCharacterised(b: bytes, name: bytes)
    ensures Parse(b) == Ok(name) <==> Names(b, name)
  {
    if Parse(b) == Ok(name) {
      ParsedNames(b, name);
    }
    if Names(b, name) {
      var pre: Prelude, total: nat, before: seq<Extension>, listLength: bytes, more: bytes, tail: bytes :|
        NamesAs(b, name, pre, total, before, listLength, more, tail);
      NamedParses(b, name, pre, total, before, listLength, more, tail);
    }
  }

  lemma ParsedNames(b: bytes, name: bytes)
    requires Parse(b) == Ok(name)
    ensures Names(b, name)
  {
    var pre := PreludeOf(b);
    var rest := Locate(b).ext;
    var before, sni, tail := FoundInClipped(rest[2..], U16(rest));
    var listLength, name', more := EntryOf(sni.data);
    U16Reencode(rest);
    assert NamesAs(b, name, pre, U16(rest), before, listLength, more, tail);
  }

  lemma NamedParses(b: bytes, name: bytes, pre: Prelude, total: nat, before: seq<Extension>,
                    listLength: bytes, more: bytes, tail: bytes)
    requires NamesAs(b, name, pre, total, before, listLength, more, tail)
    ensures Parse(b) == Ok(name)
  {
    var sni := Extension(0, HostEntry(listLength, name, more));
    var after := EncodeAll(before) + (sni.Encode() + tail);
    LocateEncoded(pre, EncodeU16(total) + after);
    U16RoundTrip(total, after);
    FindInserted(total, before, sni, tail);
    HostNameOfEntry(listLength, name, more);
  }

  lemma FoundInClipped(p: bytes, total: nat) returns (before: seq<Extension>, sni: Extension, tail: bytes)
    requires FindSni(Clip(p, total)).Ok?
    ensures AllValid(before) && (forall i :: 0 <= i < |before| ==> before[i].kind != 0)
    ensures sni.kind == 0 && sni.Valid() && HostName(sni.data) == FindSni(Clip(p, total))
    ensures p == EncodeAll(before) + (sni.Encode() + tail)
    ensures |EncodeAll(before)| + |sni.Encode()| <= total
  {
    var ext := Clip(p, total);
    var beyond := p[|ext|..];
    before, sni, tail := FoundIn(ext);
    assert p == ext + beyond;
    Associate(EncodeAll(before), sni.Encode() + tail, beyond);
    Associate(sni.Encode(), tail, beyond);
    tail := tail + beyond;
  }

  lemma FindInserted(total: nat, before: seq<Extension>, sni: Extension, tail: bytes)
    requires AllValid(before) && (forall i :: 0 <= i < |before| ==> before[i].kind != 0)
    requires sni.Valid() && sni.kind == 0 && |EncodeAll(before)| + |sni.Encode()| <= total
    ensures FindSni(Clip(EncodeAll(before) + (sni.Encode() + tail), total)) == HostName(sni.data)
  {
    var all, e := EncodeAll(before), sni.Encode();
    var room := total - |all| - |e|;
    var kept := Clip(tail, room);
    assert Clip(all + (e + tail), total) == all + (e + kept);
    FindPast(before, e + kept);
    FindFirst(sni, kept);
  }

  /** A found name does not depend on the bytes that follow the message. */
  lemma ParseIgnoresAppended(b: bytes, extra: bytes)
    requires Parse(b).Ok?
    ensures Parse(b + extra) == Parse(b)
  {
    var name := Parse(b).name;
    ParseCharacterised(b, name);
    var pre: Prelude, total: nat, before: seq<Extension>, listLength: bytes, more: bytes, tail: bytes :|
      NamesAs(b, name, pre, total, before, listLength, more, tail);
    var sni := Extension(0, HostEntry(listLength, name, more));
    var all := EncodeAll(before);
    EncodePreludeAppends(pre, EncodeU16(total) + (all + (sni.Encode() + tail)), extra);
    Associate(EncodeU16(total), all + (sni.Encode() + tail), extra);
    Associate(all, sni.Encode() + tail, extra);
    Associate(sni.Encode(), tail, extra);
    NamedParses(b + extra, name, pre, total, before, listLength, more, tail + extra);
  }

  lemma EncodePreludeAppends(pre: Prelude, rest: bytes, extra: bytes)
    requires pre.Valid()
    ensures pre.Encode(rest) + extra == pre.Encode(rest + extra)
  {
    var p3 := Vector8(pre.compression) + rest;
    var p2 := Vector16(pre.ciphers) + p3;
    var p1 := Vector8(pre.session) + p2;
    Associate([0x01] + pre.length, pre.versionAndRandom + p1, extra);
    Associate(pre.versionAndRandom, p1, extra);
    Associate(Vector8(pre.session), p2, extra);
    Associate(Vector16(pre.ciphers), p3, extra);
    Associate(Vector8(pre.compression), rest, extra);
  }

  /** What the wire format says the name of a list of extensions is. */
  function Expected(exts: seq<Extension>): Result {
    if exts == [] then Err(NoSni)
    else if exts[0].kind == 0 then HostName(exts[0].data)
    else Expected(exts[1..])
  }

  lemma {:induction false} FindInAll(exts: seq<Extension>)
    requires AllValid(exts)
    ensures FindSni(EncodeAll(exts)) == Expected(exts)
  {
    if exts != [] {
      FindFirst(exts[0], EncodeAll(exts[1..]));
      FindInAll(exts[1..]);
    }
  }

  /** Round trip on every well-formed hello, including those without a usable name. */
  lemma HelloRoundTrip(pre: Prelude, exts: seq<Extension>)
    requires pre.Valid() && AllValid(exts) && |EncodeAll(exts)| < 65536
    ensures Parse(pre.Encode(Vector16(EncodeAll(exts)))) == Expected(exts)
  {
    var e := EncodeAll(exts);
    LocateEncoded(pre, Vector16(e));
    U16RoundTrip(|e|, e);
    assert Clip(Vector16(e)[2..], |e|) == e;
    FindInAll(exts);
  }

  // ---------------------------------------------------------- record layer

  datatype RecordRead = RecordRead(raw: bytes, result: Result)

  function Zeros(n: nat): (z: bytes)
    ensures |z| == n
  {
    seq(n, i => 0)
  }

  /** What is read of a connection that delivers `stream` and then ends. */
  function ReadRecord(stream: bytes): RecordRead {
    if |stream| < 5 then RecordRead([], Err(ShortRead))
    else if stream[0] != 0x16 then RecordRead(stream[..5], Err(NotHandshake))
    else
      var n := U16(stream[3..]);
      if n == 0 then RecordRead(stream[..5], Err(BadRecordLength))
      else if |stream| < 5 + n then RecordRead(stream + Zeros(5 + n - |stream|), Err(ShortRead))
      else RecordRead(stream[..5 + n], Parse(stream[5..5 + n]))
  }

  method ReadClientHello(stream: bytes) returns (r: RecordRead)
    ensures r == ReadRecord(stream)
  {
    if |stream| < 5 {
      return RecordRead([], Err(ShortRead));
    }
    var hdr := stream[..5];
    if hdr[0] != 0x16 {
      return RecordRead(hdr, Err(NotHandshake));
    }
    var recLen := U16(hdr[3..5]);
    assert recLen == U16(stream[3..]);
    if recLen <= 0 || recLen > 65536 {
      return RecordRead(hdr, Err(BadRecordLength));
    }
    if |stream| - 5 < recLen {
      var padded := stream[5..] + Zeros(5 + recLen - |stream|);
      assert hdr + padded == stream + Zeros(5 + recLen - |stream|);
      return RecordRead(hdr + padded, Err(ShortRead));
    }
    var body := stream[5..5 + recLen];
    assert hdr + body == stream[..5 + recLen];
    var sni := ParseClientHello(body);
    return RecordRead(hdr + body, sni);
  }

  /** Unless the connection ends inside the record, what is replayed is what was sent first, and nothing later
      is looked at. */
  lemma ReplayIsPrefix(stream: bytes, more: bytes)
    requires ReadRecord(stream).result != Err(ShortRead)
    ensures ReadRecord(stream).raw <= stream
    ensures ReadRecord(stream + more) == ReadRecord(stream)
  {
    assert (stream + more)[..5] == stream[..5];
    var n := U16(stream[3..]);
    if stream[0] == 0x16 && n != 0 && |stream| >= 5 + n {
      assert (stream + more)[..5 + n] == stream[..5 + n];
      assert (stream + more)[5..5 + n] == stream[5..5 + n];
    }
  }

  /** A hello sent in one record is kept whole and its name found, whatever follows on the connection. */
  lemma RecordRoundTrip(pre: Prelude, exts: seq<Extension>, version: bytes, more: bytes)
    requires pre.Valid() && AllValid(exts) && |EncodeAll(exts)| < 65536 && |version| == 2
    requires |pre.Encode(Vector16(EncodeAll(exts)))| < 65536
    ensures var hello := pre.Encode(Vector16(EncodeAll(exts)));
            var sent := [0x16] + version + Vector16(hello);
            ReadRecord(sent + more) == RecordRead(sent, Expected(exts))
  {
    var hello := pre.Encode(Vector16(EncodeAll(exts)));
    var sent := [0x16] + version + Vector16(hello);
    HelloRoundTrip(pre, exts);
    ReadRecordOf(hello, version);
    ParseNeverShort(hello);
    ReplayIsPrefix(sent, more);
  }

  lemma ReadRecordOf(hello: bytes, version: bytes)
    requires 0 < |hello| < 65536 && |version| == 2
    ensures var sent := [0x16] + version + Vector16(hello);
            ReadRecord(sent) == RecordRead(sent, Parse(hello))
  {
    hide Parse;
    var sent := [0x16] + version + Vector16(hello);
    assert sent[3..] == EncodeU16(|hello|) + hello;
    U16RoundTrip(|hello|, hello);
    assert sent[5..5 + |hello|] == hello && sent[..5 + |hello|] == sent;
  }

  lemma ParseNeverShort(b: bytes)
    ensures Parse(b) != Err(ShortRead)
  {
    if Locate(b).At? {
      FindNeverShort(Clip(Locate(b).ext[2..], U16(Locate(b).ext)));
    }
  }

  lemma FindNeverShort(ext: bytes)
    ensures FindSni(ext) != Err(ShortRead)
    decreases |ext|
  {
  }

  /** A name is found exactly when the connection begins with a whole handshake record whose body gives it. */
  lemma RecordCharacterised(stream: bytes, name: bytes)
    ensures ReadRecord(stream).result == Ok(name)
       <==> exists version, body, more :: IsRecord(stream, version, body, more) && Parse(body) == Ok(name)
  {
    hide Parse;
    if ReadRecord(stream).result == Ok(name) {
      var n := U16(stream[3..]);
      var body := stream[5..5 + n];
      U16Reencode(stream[3..]);
      assert stream[3..] == EncodeU16(n) + stream[5..];
      assert stream == [0x16] + stream[1..3] + Vector16(body) + stream[5 + n..];
      assert IsRecord(stream, stream[1..3], body, stream[5 + n..]);
    }
    if version, body, more :| IsRecord(stream, version, body, more) && Parse(body) == Ok(name) {
      ReadRecordOf(body, version);
      ReplayIsPrefix([0x16] + version + Vector16(body), more);
    }
  }

  ghost predicate IsRecord(stream: bytes, version: bytes, body: bytes, more: bytes) {
    |version| == 2 && 0 < |body| < 65536 && stream == [0x16] + version + Vector16(body) + more
  }

  /** What does not begin with a handshake record is refused after five bytes, and less than five after none. */
  lemma RecordRefused(stream: bytes)
    ensures |stream| < 5 ==> ReadRecord(stream) == RecordRead([], Err(ShortRead))
    ensures |stream| >= 5 && stream[0] != 0x16 ==> ReadRecord(stream) == RecordRead(stream[..5], Err(NotHandshake))
    ensures |stream| >= 5 && stream[0] == 0x16 && stream[3] == stream[4] == 0 ==>
              ReadRecord(stream) == RecordRead(stream[..5], Err(BadRecordLength))
  {
  }

  /** When the connection ends inside a record, all of it is kept and the rest of the record is zeros. */
  lemma RecordCut(stream: bytes)
    requires |stream| >= 5 && stream[0] == 0x16 && |stream| < 5 + U16(stream[3..])
    ensures var r := ReadRecord(stream);
            && r.result == Err(ShortRead) && |r.raw| == 5 + U16(stream[3..]) && stream <= r.raw
            && forall i :: |stream| <= i < |r.raw| ==> r.raw[i] == 0
  {
  }
}
