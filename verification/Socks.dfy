/**
 SOCKS5 addresses and datagrams of `lib/socks.py`. A file object hands out its bytes in pieces of any size, so what is
 proved of reading holds however a stream is split. Address conversion, IDNA and name resolution are given.
 */
module Socks {
  import opened Wrappers
  import opened Arithmetic
  import Codecs = ByteCodecs

  type Byte = Codecs.Byte
  type Bytes = Codecs.Bytes

  datatype Error =
    | ConnectionClosed | InvalidData | PortOutOfRange | NameNotEncodable | LengthNotEncodable | NotResolved
    | Fragmented | Truncated | PacketFiltered

  /** A host as read back: text for an IP address, the encoded bytes for a name. */
  datatype Host = Text(s: string) | Raw(b: Bytes)

  datatype Address = Address(host: Host, port: nat)

  datatype Env = Env(
    pton4: string -> Option<Bytes>, pton6: string -> Option<Bytes>, ntop4: Bytes -> string, ntop6: Bytes -> string,
    idna: string -> Option<Bytes>, resolve: string -> Option<string>)

  ghost predicate Lawful(env: Env) {
    && (forall h :: env.pton4(h).Some? ==> |env.pton4(h).value| == 4)
    && (forall h :: env.pton6(h).Some? ==> |env.pton6(h).value| == 16)
  }

  // ----- files -----

  class Source {
    var data: Bytes

    constructor (data: Bytes)
      ensures this.data == data
    {
      this.data := data;
    }

    /** Some of the bytes asked for: at least one unless none are left. */
    method Read(count: nat) returns (d: Bytes)
      modifies this
      ensures d + data == old(data) && |d| <= count && (d == [] ==> count == 0 || old(data) == [])
    {
      if count == 0 || data == [] {
        d := [];
      } else {
        var n: nat :| 1 <= n <= count && n <= |data|;
        d := data[..n];
        data := data[n..];
      }
    }
  }

  class Sink {
    var data: Bytes

    constructor ()
      ensures data == []
    {
      data := [];
    }

    method Write(b: Bytes)
      modifies this
      ensures data == old(data) + b
    {
      data := data + b;
    }
  }

  /** Reading exactly `count` bytes. */
  function Take(s: Bytes, count: nat): (Result<Bytes, Error>, Bytes) {
    if |s| < count then (Err(ConnectionClosed), []) else (Ok(s[..count]), s[count..])
  }

  method ReadAll(file: Source, count: nat) returns (r: Result<Bytes, Error>)
    modifies file
    ensures (r, file.data) == Take(old(file.data), count)
  {
    var data: Bytes := [];
    while |data| < count
      invariant |data| <= count && data + file.data == old(file.data)
      decreases count - |data|
    {
      var d := file.Read(count - |data|);
      if d == [] {
        return Err(ConnectionClosed);
      }
      assert data + (d + file.data) == data + d + file.data;
      data := data + d;
    }
    r := Ok(data);
  }

  // ----- addresses -----

  function PackPort(port: nat): Result<Bytes, Error> {
    if port < 65536 then Ok([(port / 256) as Byte, (port % 256) as Byte]) else Err(PortOutOfRange)
  }

  /** `chr(n).encode()`: UTF-8, with neither surrogates nor numbers beyond Unicode. */
  function Utf8(n: nat): Option<Bytes> {
    if n < 0x80 then Some([n as Byte])
    else if n < 0x800 then Some([(0xC0 + n / 64) as Byte, (0x80 + n % 64) as Byte])
    else if 0xD800 <= n < 0xE000 then None
    else if n < 0x1_0000 then
      Some([(0xE0 + n / 4096) as Byte, (0x80 + n / 64 % 64) as Byte, (0x80 + n % 64) as Byte])
    else if n < 0x11_0000 then
      Some([(0xF0 + n / 262144) as Byte, (0x80 + n / 4096 % 64) as Byte, (0x80 + n / 64 % 64) as Byte,
            (0x80 + n % 64) as Byte])
    else None
  }

  /** An address before its port: the bytes, and the host reported to the caller. */
  datatype Written = Written(bytes: Bytes, host: string)

  function IpBytes(env: Env, host: string): Option<Written> {
    if env.pton4(host).Some? then Some(Written([1] + env.pton4(host).value, env.ntop4(env.pton4(host).value)))
    else if env.pton6(host).Some? then Some(Written([4] + env.pton6(host).value, env.ntop6(env.pton6(host).value)))
    else None
  }

  function HostBytes(env: Env, rdns: bool, host: string): Result<Written, Error> {
    if IpBytes(env, host).Some? then Ok(IpBytes(env, host).value)
    else if rdns then
      var name := env.idna(host);
      if name.None? then Err(NameNotEncodable)
      else if Utf8(|name.value|).None? then Err(LengthNotEncodable)
      else Ok(Written([3] + Utf8(|name.value|).value + name.value, host))
    else
      var ip := env.resolve(host);
      if ip.None? || IpBytes(env, ip.value).None? then Err(NotResolved) else Ok(IpBytes(env, ip.value).value)
  }

  /** All that is written for an address. */
  function AddressBytes(env: Env, rdns: bool, host: string, port: nat): Result<Bytes, Error> {
    var h := HostBytes(env, rdns, host);
    if h.Err? then Err(h.error)
    else if PackPort(port).Err? then PackPort(port) else Ok(h.value.bytes + PackPort(port).value)
  }

  /** What has reached the file when the port turns out not to fit: the host part, if there is one. */
  function HostPart(env: Env, rdns: bool, host: string): Bytes {
    if HostBytes(env, rdns, host).Ok? then HostBytes(env, rdns, host).value.bytes else []
  }

  method WriteAddress(env: Env, rdns: bool, host: string, port: nat, file: Sink) returns (r: Result<string, Error>)
    modifies file
    ensures var b := AddressBytes(env, rdns, host, port);
            && (r.Ok? <==> b.Ok?) && (r.Err? ==> b == Err(r.error))
            && (r.Ok? ==> file.data == old(file.data) + b.value && r.value == HostBytes(env, rdns, host).value.host)
            && (r.Err? ==> file.data == old(file.data) + HostPart(env, rdns, host))
  {
    var ip := env.pton4(host);
    var resolved: string;
    if ip.Some? {
      file.Write([1] + ip.value);
      resolved := env.ntop4(ip.value);
    } else {
      ip := env.pton6(host);
      if ip.Some? {
        file.Write([4] + ip.value);
        resolved := env.ntop6(ip.value);
      } else {
        var h := HostBytes(env, rdns, host);
        if h.Err? {
          return Err(h.error);
        }
        file.Write(h.value.bytes);
        resolved := h.value.host;
      }
    }
    var p := PackPort(port);
    if p.Err? {
      return Err(p.error);
    }
    file.Write(p.value);
    r := Ok(resolved);
  }

  /** `_read_SOCKS5_address` on the bytes of a stream: the address, and what is left. */
  function ParseAddress(env: Env, s: Bytes): (Result<Address, Error>, Bytes) {
    if s == [] then (Err(ConnectionClosed), [])
    else if s[0] == 1 then
      var a := Take(s[1..], 4);
      if a.0.Err? then (Err(a.0.error), a.1) else ParsePort(Text(env.ntop4(a.0.value)), a.1)
    else if s[0] == 3 then
      if |s| == 1 then (Err(ConnectionClosed), [])
      else
        var a := Take(s[2..], s[1] as nat);
        if a.0.Err? then (Err(a.0.error), a.1) else ParsePort(Raw(a.0.value), a.1)
    else if s[0] == 4 then
      var a := Take(s[1..], 16);
      if a.0.Err? then (Err(a.0.error), a.1) else ParsePort(Text(env.ntop6(a.0.value)), a.1)
    else (Err(InvalidData), s[1..])
  }

  function ParsePort(host: Host, s: Bytes): (Result<Address, Error>, Bytes) {
    var p := Take(s, 2);
    if p.0.Err? then (Err(p.0.error), p.1)
    else (Ok(Address(host, p.0.value[0] as nat * 256 + p.0.value[1] as nat)), p.1)
  }

  method ReadAddress(env: Env, file: Source) returns (r: Result<Address, Error>)
    modifies file
    ensures (r, file.data) == ParseAddress(env, old(file.data))
  {
    var atyp := ReadAll(file, 1);
    if atyp.Err? {
      return Err(atyp.error);
    }
    var host: Host;
    if atyp.value[0] == 1 {
      var a := ReadAll(file, 4);
      if a.Err? {
        return Err(a.error);
      }
      host := Text(env.ntop4(a.value));
    } else if atyp.value[0] == 3 {
      var length := ReadAll(file, 1);
      if length.Err? {
        return Err(length.error);
      }
      assert file.data == old(file.data)[2..];
      var a := ReadAll(file, length.value[0] as nat);
      if a.Err? {
        return Err(a.error);
      }
      host := Raw(a.value);
    } else if atyp.value[0] == 4 {
      var a := ReadAll(file, 16);
      if a.Err? {
        return Err(a.error);
      }
      host := Text(env.ntop6(a.value));
    } else {
      return Err(InvalidData);
    }
    var p := ReadAll(file, 2);
    if p.Err? {
      return Err(p.error);
    }
    r := Ok(Address(host, p.value[0] as nat * 256 + p.value[1] as nat));
  }

  // ----- the form on the wire -----

  /** The host a reader gets for an IP address. */
  function IpRead(env: Env, ip: string): Host {
    if env.pton4(ip).Some? then Text(env.ntop4(env.pton4(ip).value))
    else if env.pton6(ip).Some? then Text(env.ntop6(env.pton6(ip).value))
    else Text(ip)
  }

  /**
   The host a reader gets for an address that was written: an IP address, a name, or what the name was resolved to.
   */
  function HostRead(env: Env, rdns: bool, host: string): Host {
    if env.pton4(host).Some? || env.pton6(host).Some? then IpRead(env, host)
    else if rdns then Raw(if env.idna(host).Some? then env.idna(host).value else [])
    else IpRead(env, if env.resolve(host).Some? then env.resolve(host).value else host)
  }

  /** Sections 4 and 5 of RFC 1928: the type, the address, and the port in network octet order. */
  ghost predicate Wire(env: Env, b: Bytes, a: Address) {
    && |b| >= 4
    && a.port == b[|b| - 2] as nat * 256 + b[|b| - 1] as nat
    && (|| (b[0] == 1 && |b| == 7 && a.host == Text(env.ntop4(b[1..5])))
        || (b[0] == 3 && |b| == 4 + b[1] as nat && a.host == Raw(b[2..|b| - 2]))
        || (b[0] == 4 && |b| == 19 && a.host == Text(env.ntop6(b[1..17]))))
  }

  /** `rest` ends `s`, and the address stands before it in its form on the wire. */
  ghost predicate WireThen(env: Env, s: Bytes, a: Address, rest: Bytes) {
    |rest| <= |s| && s[|s| - |rest|..] == rest && Wire(env, s[..|s| - |rest|], a)
  }

  /** The length of the address that a stream begins with, as far as it can be seen. */
  function WireLength(s: Bytes): nat {
    if s == [] then 1
    else if s[0] == 1 then 7
    else if s[0] == 4 then 19
    else if s[0] == 3 then (if |s| == 1 then 2 else 4 + s[1] as nat)
    else 1
  }

  /**
   For every stream: an unknown type is invalid, a stream that ends within the address is reported closed, and any
   other gives the address that stands in front and leaves exactly the rest.
   */
  lemma ReadsWire(env: Env, s: Bytes)
    ensures s != [] && s[0] != 1 && s[0] != 3 && s[0] != 4 ==> ParseAddress(env, s).0 == Err(InvalidData)
    ensures (s == [] || s[0] == 1 || s[0] == 3 || s[0] == 4) && |s| < WireLength(s) ==>
              ParseAddress(env, s).0 == Err(ConnectionClosed)
    ensures s != [] && (s[0] == 1 || s[0] == 3 || s[0] == 4) && WireLength(s) <= |s| && (s[0] == 3 ==> |s| > 1) ==>
              var (a, rest) := ParseAddress(env, s);
              a.Ok? && |rest| == |s| - WireLength(s) && WireThen(env, s, a.value, rest)
  {
    if s != [] && s[0] == 3 && |s| > 1 {
      NameOnWire(env, s);
    } else if s != [] && (s[0] == 1 || s[0] == 4) {
      IpOnWire(env, s, if s[0] == 1 then 4 else 16);
    }
  }

  lemma IpOnWire(env: Env, s: Bytes, n: nat)
    requires s != [] && ((s[0] == 1 && n == 4) || (s[0] == 4 && n == 16))
    ensures |s| < n + 3 ==> ParseAddress(env, s).0 == Err(ConnectionClosed)
    ensures |s| >= n + 3 ==>
              var (a, rest) := ParseAddress(env, s);
              a.Ok? && rest == s[n + 3..] && WireThen(env, s, a.value, rest)
  {
    if |s| >= n + 3 {
      var host := if n == 4 then Text(env.ntop4(s[1..5])) else Text(env.ntop6(s[1..17]));
      assert s[1..][..n] == s[1..n + 1] && s[1..][n..] == s[n + 1..];
      assert s[n + 1..][2..] == s[n + 3..];
      var b := s[..n + 3];
      assert b[1..n + 1] == s[1..n + 1];
    }
  }

  lemma NameOnWire(env: Env, s: Bytes)
    requires |s| > 1 && s[0] == 3
    ensures var n := s[1] as nat;
            && (|s| < n + 4 ==> ParseAddress(env, s).0 == Err(ConnectionClosed))
            && (|s| >= n + 4 ==>
                  var (a, rest) := ParseAddress(env, s);
                  a.Ok? && rest == s[n + 4..] && WireThen(env, s, a.value, rest))
  {
    var n := s[1] as nat;
    if |s| >= n + 4 {
      assert s[2..][..n] == s[2..n + 2] && s[2..][n..] == s[n + 2..];
      assert s[n + 2..][2..] == s[n + 4..];
      var b := s[..n + 4];
      assert b[2..|b| - 2] == s[2..n + 2];
    }
  }

  /** What is written for an IP address, or for a name that was resolved to one. */
  lemma IpWritten(env: Env, ip: string, port: nat)
    requires Lawful(env) && IpBytes(env, ip).Some? && port < 65536
    ensures Wire(env, IpBytes(env, ip).value.bytes + PackPort(port).value, Address(IpRead(env, ip), port))
  {
    var a := if env.pton4(ip).Some? then env.pton4(ip).value else env.pton6(ip).value;
    var b := IpBytes(env, ip).value.bytes + PackPort(port).value;
    assert b[1..1 + |a|] == a;
  }

  /**
   What is written, for every host and port: whenever it succeeds, the address in its form on the wire, unless the name
   has 128 encoded octets or more. The host reported to the caller is the one written, a name as it was given.
   */
  lemma WritesWire(env: Env, rdns: bool, host: string, port: nat)
    requires Lawful(env) && AddressBytes(env, rdns, host, port).Ok?
    requires IpBytes(env, host).Some? || !rdns || |env.idna(host).value| <= 127
    ensures Wire(env, AddressBytes(env, rdns, host, port).value, Address(HostRead(env, rdns, host), port))
    ensures var reported := HostBytes(env, rdns, host).value.host;
            if IpBytes(env, host).None? && rdns then reported == host else HostRead(env, rdns, host) == Text(reported)
  {
    if IpBytes(env, host).Some? {
      IpWritten(env, host, port);
    } else if !rdns {
      IpWritten(env, env.resolve(host).value, port);
    } else {
      var name, b := env.idna(host).value, AddressBytes(env, rdns, host, port).value;
      assert b == [3] + Utf8(|name|).value + name + PackPort(port).value;
      assert b[2..|b| - 2] == name;
    }
  }

  /** When writing fails, and with which error. */
  lemma WriteFails(env: Env, rdns: bool, host: string, port: nat)
    ensures var ip := env.pton4(host).Some? || env.pton6(host).Some?;
            var resolved := env.resolve(host).Some? && (env.pton4(env.resolve(host).value).Some?
                                                        || env.pton6(env.resolve(host).value).Some?);
            var r := AddressBytes(env, rdns, host, port);
            && (!ip && !rdns && !resolved ==> r == Err(NotResolved))
            && (!ip && rdns && env.idna(host).None? ==> r == Err(NameNotEncodable))
            && (ip || (!rdns && resolved) || (rdns && env.idna(host).Some? && |env.idna(host).value| < 0xD800) ==>
                  if port < 65536 then r.Ok? else r == Err(PortOutOfRange))
  {
  }

  /** A stream begins with at most one address, and it is the one that is read. */
  lemma WireIsUnique(env: Env, s: Bytes, a: Address, rest: Bytes)
    requires WireThen(env, s, a, rest)
    ensures ParseAddress(env, s) == (Ok(a), rest)
  {
    var b := s[..|s| - |rest|];
    assert b[0] == s[0] && b[1] == s[1];
    assert |b| == WireLength(s);
    ReadsWire(env, s);
    var (a', rest') := ParseAddress(env, s);
    assert rest' == rest;
  }

  // ----- what is written can be read -----

  /** From 128 on the length takes several bytes: the first is at least 194, the next is read as part of the name. */
  lemma LongNameMisread(env: Env, name: Bytes, port: nat, rest: Bytes)
    requires |name| >= 128 && Utf8(|name|).Some? && (forall i :: 0 <= i < |name| ==> name[i] < 128)
    ensures ParseAddress(env, [3] + Utf8(|name|).value + name + rest).0 != Ok(Address(Raw(name), port))
  {
    var u := Utf8(|name|).value;
    var s := [3] + u + name + rest;
    assert s[1] == u[0] && s[2] == u[1] && u[0] >= 192 && u[1] >= 128;
    var a := Take(s[2..], s[1] as nat);
    if a.0.Ok? { assert a.0.value[0] == s[2] && name[0] < 128; }
  }

  /**
   Reading what was written gives back the address and the port, and leaves exactly the bytes behind it, iff the host
   is an IP address, was resolved to one, or is a name of at most 127 encoded octets.
   */
  lemma AddressRoundTripIff(env: Env, rdns: bool, host: string, port: nat, rest: Bytes)
    requires Lawful(env) && AddressBytes(env, rdns, host, port).Ok?
    requires env.idna(host).Some? ==> forall i :: 0 <= i < |env.idna(host).value| ==> env.idna(host).value[i] < 128
    ensures ParseAddress(env, AddressBytes(env, rdns, host, port).value + rest)
            == (Ok(Address(HostRead(env, rdns, host), port)), rest)
            <==> (IpBytes(env, host).Some? || !rdns || |env.idna(host).value| <= 127)
  {
    var b := AddressBytes(env, rdns, host, port).value;
    if IpBytes(env, host).Some? || !rdns || |env.idna(host).value| <= 127 {
      WritesWire(env, rdns, host, port);
      assert (b + rest)[..|b|] == b && (b + rest)[|b|..] == rest;
      WireIsUnique(env, b + rest, Address(HostRead(env, rdns, host), port), rest);
    } else {
      var w, p := HostBytes(env, rdns, host).value, PackPort(port).value;
      assert b + rest == w.bytes + (p + rest);
      LongNameMisread(env, env.idna(host).value, port, p + rest);
    }
  }

  // ----- datagrams -----

  /** `sendto`: a header of two reserved bytes and a fragment number of zero, the address, the payload. */
  function Datagram(env: Env, rdns: bool, host: string, port: nat, payload: Bytes): Result<Bytes, Error> {
    var a := AddressBytes(env, rdns, host, port);
    if a.Err? then a else Ok([0, 0, 0] + a.value + payload)
  }

  method SendTo(env: Env, rdns: bool, host: string, port: nat, payload: Bytes, socket: Sink)
    returns (r: Result<int, Error>)
    modifies socket
    ensures var d := Datagram(env, rdns, host, port, payload);
            && (r.Ok? <==> d.Ok?) && (r.Err? ==> d == Err(r.error) && socket.data == old(socket.data))
            && (r.Ok? ==> socket.data == old(socket.data) + d.value && r.value == |payload|)
  {
    var header := new Sink();
    header.Write([0, 0]);
    header.Write([0]);
    var a := WriteAddress(env, rdns, host, port, header);
    if a.Err? {
      return Err(a.error);
    }
    var sent := |header.data + payload|;
    assert header.data == [0, 0, 0] + AddressBytes(env, rdns, host, port).value;
    socket.Write(header.data + payload);
    r := Ok(sent - |header.data|);
  }

  datatype Received = Received(payload: Bytes, from: Address)

  /** `recvfrom`: the datagram is cut to `bufsize + 1024`, its header checked and stripped, its sender filtered. */
  function Unframe(env: Env, datagram: Bytes, bufsize: nat, peer: Option<Address>): Result<Received, Error> {
    var buf := datagram[..Min(bufsize + 1024, |datagram|)];
    if |buf| < 3 then Err(Truncated)
    else if buf[2] != 0 then Err(Fragmented)
    else
      var a := ParseAddress(env, buf[3..]);
      if a.0.Err? then Err(a.0.error)
      else if peer.Some?
              && (a.0.value.host != peer.value.host || (peer.value.port != 0 && peer.value.port != a.0.value.port))
      then Err(PacketFiltered)
      else Ok(Received(a.1[..Min(bufsize, |a.1|)], a.0.value))
  }

  method RecvFrom(env: Env, datagram: Bytes, bufsize: nat, peer: Option<Address>) returns (r: Result<Received, Error>)
    ensures r == Unframe(env, datagram, bufsize, peer)
  {
    var buf := datagram[..Min(bufsize + 1024, |datagram|)];
    if |buf| < 3 {
      return Err(Truncated);
    }
    if buf[2] != 0 {
      return Err(Fragmented);
    }
    var file := new Source(buf[3..]);
    var from := ReadAddress(env, file);
    if from.Err? {
      return Err(from.error);
    }
    if peer.Some? {
      if from.value.host != peer.value.host || (peer.value.port != 0 && peer.value.port != from.value.port) {
        return Err(PacketFiltered);
      }
    }
    r := Ok(Received(file.data[..Min(bufsize, |file.data|)], from.value));
  }

  lemma HeaderIsShort(env: Env, rdns: bool, host: string, port: nat)
    requires Lawful(env) && AddressBytes(env, rdns, host, port).Ok?
    requires IpBytes(env, host).Some? || !rdns || |env.idna(host).value| <= 127
    ensures |AddressBytes(env, rdns, host, port).value| <= 131
  {
  }

  /**
   A datagram framed by `sendto` is received by `recvfrom` with the sender's address and its payload, cut to the
   buffer, unless a peer is set that does not match.
   */
  lemma DatagramRoundTrip(env: Env, rdns: bool, host: string, port: nat, payload: Bytes, bufsize: nat,
                          peer: Option<Address>)
    requires Lawful(env) && Datagram(env, rdns, host, port, payload).Ok?
    requires IpBytes(env, host).Some? || !rdns || |env.idna(host).value| <= 127
    requires env.idna(host).Some? ==> forall i :: 0 <= i < |env.idna(host).value| ==> env.idna(host).value[i] < 128
    ensures var from := Address(HostRead(env, rdns, host), port);
            Unframe(env, Datagram(env, rdns, host, port, payload).value, bufsize, peer) ==
            if peer.Some? && (from.host != peer.value.host || (peer.value.port != 0 && peer.value.port != port))
            then Err(PacketFiltered) else Ok(Received(payload[..Min(bufsize, |payload|)], from))
  {
    var a := AddressBytes(env, rdns, host, port).value;
    HeaderIsShort(env, rdns, host, port);
    var d := Datagram(env, rdns, host, port, payload).value;
    var n := Min(bufsize + 1024, |d|);
    var kept := payload[..n - 3 - |a|];
    assert d == [0, 0, 0] + (a + payload) && d[3..] == a + payload;
    assert d[..n][3..] == (a + payload)[..n - 3] == a + kept;
    AddressRoundTripIff(env, rdns, host, port, kept);
    assert kept[..Min(bufsize, |kept|)] == payload[..Min(bufsize, |payload|)];
  }

  /** A framed datagram begins with two reserved bytes and the fragment number, all zero (section 7 of RFC 1928). */
  lemma DatagramIs(env: Env, rdns: bool, host: string, port: nat, payload: Bytes)
    requires Lawful(env) && Datagram(env, rdns, host, port, payload).Ok?
    requires IpBytes(env, host).Some? || !rdns || |env.idna(host).value| <= 127
    ensures var d := Datagram(env, rdns, host, port, payload).value;
            && |d| > 3 && d[0] == 0 && d[1] == 0 && d[2] == 0
            && WireThen(env, d[3..], Address(HostRead(env, rdns, host), port), payload)
  {
    WritesWire(env, rdns, host, port);
    var a, d := AddressBytes(env, rdns, host, port).value, Datagram(env, rdns, host, port, payload).value;
    assert d[3..] == a + payload && (a + payload)[..|a|] == a;
  }

  /** The sender is the peer that was set, if any; a peer port of zero stands for any port. */
  ghost predicate FromPeer(a: Address, peer: Option<Address>) {
    peer.Some? ==> a.host == peer.value.host && (peer.value.port == 0 || peer.value.port == a.port)
  }

  /**
   For every datagram: `recvfrom` gives an answer iff what it read has a header that is no fragment's, an address on
   the wire behind it, from the peer that was set; the answer is then that address and what follows it, cut to the
   buffer.
   */
  lemma ReceivesIff(env: Env, datagram: Bytes, bufsize: nat, peer: Option<Address>, r: Received)
    ensures var buf := if |datagram| > bufsize + 1024 then datagram[..bufsize + 1024] else datagram;
            Unframe(env, datagram, bufsize, peer) == Ok(r) <==>
            && |buf| > 3 && buf[2] == 0 && FromPeer(r.from, peer)
            && exists rest :: WireThen(env, buf[3..], r.from, rest) && r.payload == rest[..Min(bufsize, |rest|)]
  {
    var buf := if |datagram| > bufsize + 1024 then datagram[..bufsize + 1024] else datagram;
    assert buf == datagram[..Min(bufsize + 1024, |datagram|)];
    if |buf| > 3 {
      ReadsWire(env, buf[3..]);
      forall a, rest | WireThen(env, buf[3..], a, rest)
        ensures ParseAddress(env, buf[3..]) == (Ok(a), rest)
      {
        WireIsUnique(env, buf[3..], a, rest);
      }
    }
  }
}
