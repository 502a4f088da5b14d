/** The server name in a TLS ClientHello (runtime_assets/codex_connect_proxy.py).
    The body layout is that of section 4.1.2 of RFC 8446, the server_name extension that of
    section 3 of RFC 6066. */
module ClientHello {
  import opened Wrappers
  import Sequences

  // --------------------------------------------------------------- big-endian numbers

  function Number(bytes: seq<byte>): nat {
    if bytes == [] then 0 else 256 * Number(bytes[..|bytes| - 1]) + bytes[|bytes| - 1]
  }

  function Power256(width: nat): nat {
    if width == 0 then 1 else 256 * Power256(width - 1)
  }

  /** `n` in `width` bytes, most significant first. */
  function Encoded(n: nat, width: nat): (bytes: seq<byte>)
    ensures |bytes| == width
  {
    if width == 0 then [] else Encoded(n / 256, width - 1) + [n % 256]
  }

  lemma {:induction false} NumberOfEncoded(n: nat, width: nat)
    requires n < Power256(width)
    ensures Number(Encoded(n, width)) == n
  {
    if width > 0 {
      NumberOfEncoded(n / 256, width - 1);
      assert Encoded(n, width)[..width - 1] == Encoded(n / 256, width - 1);
    }
  }

  lemma {:induction false} EncodedOfNumber(bytes: seq<byte>)
    ensures Number(bytes) < Power256(|bytes|)
    ensures Encoded(Number(bytes), |bytes|) == bytes
  {
    if bytes != [] {
      EncodedOfNumber(bytes[..|bytes| - 1]);
    }
  }

  // ------------------------------------------------------------------------ host names

  predicate IsAlphanumeric(c: byte) {
    48 <= c <= 57 || 97 <= c <= 122
  }

  /** One label: letters and digits, with hyphens only inside, of at most 63 bytes. */
  predicate IsLabel(s: seq<byte>) {
    && 1 <= |s| <= 63
    && IsAlphanumeric(s[0]) && IsAlphanumeric(s[|s| - 1])
    && forall k :: 0 <= k < |s| ==> IsAlphanumeric(s[k]) || s[k] == 45
  }

  /** The position of the first dot, or the length when there is none. */
  function FirstDot(s: seq<byte>): (i: nat)
    ensures i <= |s|
  {
    if s == [] || s[0] == 46 then 0 else 1 + FirstDot(s[1..])
  }

  predicate AreLabels(s: seq<byte>)
    decreases |s|
  {
    var dot := FirstDot(s);
    IsLabel(s[..dot]) && (dot < |s| ==> AreLabels(s[dot + 1..]))
  }

  /** The canonical host names: dot-separated labels, at most 253 bytes in all. */
  predicate IsDnsHost(s: seq<byte>) {
    1 <= |s| <= 253 && AreLabels(s)
  }

  predicate IsAscii(s: seq<byte>) {
    forall k :: 0 <= k < |s| ==> s[k] < 128
  }

  function LowerByte(c: byte): byte {
    if 65 <= c <= 90 then c + 32 else c
  }

  function Lower(s: seq<byte>): seq<byte> {
    seq(|s|, i requires 0 <= i < |s| => LowerByte(s[i]))
  }

  /** Lower case: capital letters move by the distance of the two alphabets, every other byte stays. */
  lemma LowerByPosition(s: seq<byte>, k: int)
    requires 0 <= k < |s|
    ensures |Lower(s)| == |s|
    ensures 65 <= s[k] <= 90 ==> Lower(s)[k] - 97 == s[k] - 65
    ensures !(65 <= s[k] <= 90) ==> Lower(s)[k] == s[k]
  {
  }

  predicate LetterOrDigit(s: seq<byte>, k: int) {
    0 <= k < |s| && (97 <= s[k] <= 122 || 48 <= s[k] <= 57)
  }

  /** Host labels by position: letters and digits, hyphens and dots that stand between them, and a dot among
      any 64 bytes in a row. A dot has a letter or a digit on both sides. */
  ghost predicate LabelsByPosition(s: seq<byte>) {
    && LetterOrDigit(s, 0) && LetterOrDigit(s, |s| - 1)
    && (forall k :: 0 <= k < |s| ==> LetterOrDigit(s, k) || s[k] == 45 || s[k] == 46)
    && (forall k :: 0 <= k < |s| && s[k] == 46 ==> LetterOrDigit(s, k - 1) && LetterOrDigit(s, k + 1))
    && (forall k :: 0 <= k <= |s| - 64 ==> DotAmong(s, k))
  }

  /** Among 64 bytes from here on is a dot. */
  ghost predicate DotAmong(s: seq<byte>, from: int) {
    exists j :: from <= j < from + 64 && 0 <= j < |s| && s[j] == 46
  }

  lemma {:induction false} FirstDotIs(s: seq<byte>)
    ensures forall k :: 0 <= k < FirstDot(s) ==> s[k] != 46
    ensures FirstDot(s) < |s| ==> s[FirstDot(s)] == 46
  {
    if s != [] && s[0] != 46 {
      FirstDotIs(s[1..]);
      var dot := FirstDot(s);
      assert dot == 1 + FirstDot(s[1..]) && (dot < |s| ==> s[dot] == s[1..][dot - 1]);
      forall k | 0 < k < dot ensures s[k] != 46 {
        assert s[k] == s[1..][k - 1];
      }
    }
  }

  /** A name is accepted exactly if it has at most 253 bytes and these by position. */
  lemma HostsByPosition(s: seq<byte>)
    ensures IsDnsHost(s) <==> |s| <= 253 && LabelsByPosition(s)
  {
    LabelsAre(s);
    hide AreLabels, DotAmong;
  }

  lemma {:induction false} LabelsAre(s: seq<byte>)
    ensures AreLabels(s) <==> LabelsByPosition(s)
    decreases |s|
  {
    var dot := FirstDot(s);
    FirstDotIs(s);
    LabelIs(s[..dot]);
    if dot < |s| {
      LabelsAre(s[dot + 1..]);
      LabelsSplit(s, dot);
    } else {
      assert s[..dot] == s;
    }
  }

  /** A text without dots. */
  lemma LabelIs(s: seq<byte>)
    requires forall k :: 0 <= k < |s| ==> s[k] != 46
    ensures IsLabel(s) <==> LabelsByPosition(s)
  {
    if |s| >= 64 {
      assert !DotAmong(s, 0);
    }
  }

  /** A text at its first dot. */
  lemma LabelsSplit(s: seq<byte>, dot: nat)
    requires dot < |s| && s[dot] == 46 && forall k :: 0 <= k < dot ==> s[k] != 46
    ensures LabelsByPosition(s) <==> LabelsByPosition(s[..dot]) && LabelsByPosition(s[dot + 1..])
  {
    if LabelsByPosition(s[..dot]) && LabelsByPosition(s[dot + 1..]) {
      LabelsJoin(s, dot);
    }
    if LabelsByPosition(s) {
      LabelsPart(s, dot);
    }
    hide LabelsByPosition;
  }

  /** Where the bytes of the two parts are. */
  lemma PartsAt(s: seq<byte>, dot: nat)
    requires dot < |s|
    ensures forall k :: 0 <= k < dot ==> s[..dot][k] == s[k]
    ensures forall k :: dot < k < |s| ==> s[dot + 1..][k - dot - 1] == s[k]
    ensures forall k :: k < dot ==> (LetterOrDigit(s[..dot], k) <==> LetterOrDigit(s, k))
    ensures forall k :: dot < k ==> (LetterOrDigit(s[dot + 1..], k - dot - 1) <==> LetterOrDigit(s, k))
  {
  }

  lemma LabelsJoin(s: seq<byte>, dot: nat)
    requires dot < |s| && s[dot] == 46
    requires LabelsByPosition(s[..dot]) && LabelsByPosition(s[dot + 1..])
    ensures LabelsByPosition(s)
  {
    var head, tail := s[..dot], s[dot + 1..];
    PartsAt(s, dot);
    assert LetterOrDigit(s, dot - 1) && LetterOrDigit(s, dot + 1) by {
      assert LetterOrDigit(head, |head| - 1) && LetterOrDigit(tail, 0);
    }
    assert LetterOrDigit(s, 0) && LetterOrDigit(s, |s| - 1) by {
      assert LetterOrDigit(head, 0) && LetterOrDigit(tail, |tail| - 1);
    }
    forall k | 0 <= k < |s| && s[k] == 46 ensures LetterOrDigit(s, k - 1) && LetterOrDigit(s, k + 1) {
      if k < dot {
        assert LetterOrDigit(head, k - 1) && LetterOrDigit(head, k + 1);
      } else if k > dot {
        assert LetterOrDigit(tail, k - dot - 2) && LetterOrDigit(tail, k - dot);
      }
    }
    forall k | 0 <= k < |s| ensures LetterOrDigit(s, k) || s[k] == 45 || s[k] == 46 {
      if k < dot {
        assert LetterOrDigit(head, k) || head[k] == 45 || head[k] == 46;
      } else if k > dot {
        assert LetterOrDigit(tail, k - dot - 1) || tail[k - dot - 1] == 45 || tail[k - dot - 1] == 46;
      }
    }
    hide LetterOrDigit;
    forall k | 0 <= k <= |s| - 64 ensures DotAmong(s, k) {
      if k <= dot - 64 {
        assert DotAmong(head, k);
      } else if k > dot {
        assert DotAmong(tail, k - dot - 1);
        var j :| k - dot - 1 <= j < k - dot - 1 + 64 && 0 <= j < |tail| && tail[j] == 46;
        assert s[j + dot + 1] == 46;
      }
    }
  }

  lemma LabelsPart(s: seq<byte>, dot: nat)
    requires dot < |s| && s[dot] == 46 && forall k :: 0 <= k < dot ==> s[k] != 46
    requires LabelsByPosition(s)
    ensures LabelsByPosition(s[..dot]) && LabelsByPosition(s[dot + 1..])
  {
    var head, tail := s[..dot], s[dot + 1..];
    PartsAt(s, dot);
    assert LetterOrDigit(s, dot - 1) && LetterOrDigit(s, dot + 1);
    assert dot < 64 by {
      assert 0 <= |s| - 64 ==> DotAmong(s, 0);
    }
    forall k | 0 <= k < |tail| && tail[k] == 46 ensures LetterOrDigit(tail, k - 1) && LetterOrDigit(tail, k + 1) {
      assert s[k + dot + 1] == 46;
      assert LetterOrDigit(s, k + dot) && LetterOrDigit(s, k + dot + 2);
    }
    forall k | 0 <= k <= |tail| - 64 ensures DotAmong(tail, k) {
      assert DotAmong(s, k + dot + 1);
      var j :| k + dot + 1 <= j < k + dot + 1 + 64 && 0 <= j < |s| && s[j] == 46;
      assert tail[j - dot - 1] == 46;
    }
    forall k | 0 <= k < |tail| ensures LetterOrDigit(tail, k) || tail[k] == 45 || tail[k] == 46 {
      assert LetterOrDigit(s, k + dot + 1) || s[k + dot + 1] == 45 || s[k + dot + 1] == 46;
    }
    forall k | 0 <= k < |head| ensures LetterOrDigit(head, k) || head[k] == 45 || head[k] == 46 {
      assert LetterOrDigit(s, k) || s[k] == 45;
    }
  }

  /** A host name holds only ASCII and does not end in a dot, so the two further tests made on a
      server name never reject one that matches. */
  lemma {:induction false} DnsHostIsAscii(s: seq<byte>)
    requires AreLabels(s)
    ensures IsAscii(s) && |s| > 0 && s[|s| - 1] != 46
    decreases |s|
  {
    var dot := FirstDot(s);
    FirstDotSplits(s);
    if dot < |s| {
      DnsHostIsAscii(s[dot + 1..]);
      forall k | 0 <= k < |s| ensures s[k] < 128 {
        if k < dot {
          assert s[..dot][k] == s[k];
        } else if k > dot {
          assert s[dot + 1..][k - dot - 1] == s[k];
        }
      }
    } else {
      assert s[..dot] == s;
    }
  }

  lemma {:induction false} FirstDotSplits(s: seq<byte>)
    ensures FirstDot(s) < |s| ==> s[FirstDot(s)] == 46
    ensures forall k :: 0 <= k < FirstDot(s) ==> s[k] != 46
  {
    if s != [] && s[0] != 46 {
      FirstDotSplits(s[1..]);
      forall k | 0 <= k < FirstDot(s) ensures s[k] != 46 {
        if k > 0 { assert s[1..][k - 1] == s[k]; }
      }
    }
  }

  lemma LowerIsAscii(s: seq<byte>)
    requires IsAscii(Lower(s))
    ensures IsAscii(s)
  {
    forall k | 0 <= k < |s| ensures s[k] < 128 {
      assert Lower(s)[k] == LowerByte(s[k]);
    }
  }

  // ------------------------------------------------------------------- the structures

  datatype Extension = Extension(kind: nat, value: seq<byte>)

  /** A ClientHello body; `prologue` is the legacy version and the random value. */
  datatype Hello = Hello(
    prologue: seq<byte>,
    session: seq<byte>,
    ciphers: seq<byte>,
    compression: seq<byte>,
    extensions: seq<Extension>)

  /** A vector with its length in front. */
  function Vector(width: nat, content: seq<byte>): seq<byte> {
    Encoded(|content|, width) + content
  }

  function PrintExtension(e: Extension): seq<byte> {
    Encoded(e.kind, 2) + Vector(2, e.value)
  }

  function PrintExtensions(es: seq<Extension>): seq<byte> {
    if es == [] then [] else PrintExtension(es[0]) + PrintExtensions(es[1..])
  }

  function Print(h: Hello): seq<byte> {
    h.prologue + (Vector(1, h.session) + (Vector(2, h.ciphers)
      + (Vector(1, h.compression) + Vector(2, PrintExtensions(h.extensions)))))
  }

  predicate FitsExtension(e: Extension) {
    e.kind < 65536 && |e.value| < 65536
  }

  predicate WellFormed(h: Hello) {
    && |h.prologue| == 34
    && |h.session| < 256
    && 0 < |h.ciphers| < 65536 && |h.ciphers| % 2 == 0
    && 0 < |h.compression| < 256
    && (forall k :: 0 <= k < |h.extensions| ==> FitsExtension(h.extensions[k]))
    && |PrintExtensions(h.extensions)| < 65536
  }

  /** A server_name extension value with a single DNS host_name. */
  function HostEntry(host: seq<byte>): seq<byte> {
    Vector(2, [0] + Vector(2, host))
  }

  predicate NoServerName(es: seq<Extension>) {
    forall k :: 0 <= k < |es| ==> es[k].kind != 0
  }

  /** Exactly one server_name extension, holding exactly the host name `host`. */
  ghost predicate SoleHost(es: seq<Extension>, host: seq<byte>) {
    exists k :: 0 <= k < |es| && es[k] == Extension(0, HostEntry(host)) && NoServerName(es[..k]) && NoServerName(es[k + 1..])
  }

  // ---------------------------------------------------------------- parsing, as a function

  datatype HelloError =
    | MalformedHello | MalformedCiphers | MalformedCompression | TrailingBytes
    | MalformedExtensions | MalformedExtensionLength
    | InvalidServerName | InvalidServerNameList | HostNameRequired | MultipleNames
    | NotAscii | NotCanonical | NoServerNameExtension

  /** Splits a length-prefixed vector off the front. */
  function Split(data: seq<byte>, width: nat): Option<(seq<byte>, seq<byte>)> {
    if width > |data| then None
    else
      var size := Number(data[..width]);
      if width + size > |data| then None else Some((data[width..width + size], data[width + size..]))
  }

  function ParseServerName(value: seq<byte>): Result<seq<byte>, HelloError> {
    if |value| < 2 then Err(InvalidServerName)
    else if Number(value[..2]) != |value| - 2 then Err(InvalidServerNameList)
    else
      var names := value[2..];
      if |names| < 3 || names[0] != 0 then Err(HostNameRequired)
      else if Number(names[1..3]) != |names| - 3 then Err(MultipleNames)
      else
        var host := names[3..];
        if !IsAscii(host) then Err(NotAscii)
        else if !IsDnsHost(Lower(host)) || Lower(host)[|host| - 1] == 46 then Err(NotCanonical)
        else Ok(Lower(host))
  }

  function ParseExtensions(data: seq<byte>, found: Option<seq<byte>>): Result<Option<seq<byte>>, HelloError>
    decreases |data|
  {
    if data == [] then Ok(found)
    else if |data| < 4 then Err(MalformedExtensions)
    else
      var size := Number(data[2..4]);
      if 4 + size > |data| then Err(MalformedExtensionLength)
      else if Number(data[..2]) != 0 then ParseExtensions(data[4 + size..], found)
      else if found.Some? then Err(InvalidServerName)
      else
        match ParseServerName(data[4..4 + size])
        case Err(e) => Err(e)
        case Ok(name) => ParseExtensions(data[4 + size..], Some(name))
  }

  function SkipSession(body: seq<byte>): Result<seq<byte>, HelloError> {
    if |body| < 34 then Err(MalformedHello)
    else
      match Split(body[34..], 1)
      case None => Err(MalformedHello)
      case Some((session, rest)) => Ok(rest)
  }

  function SkipCiphers(data: seq<byte>): Result<seq<byte>, HelloError> {
    match Split(data, 2)
    case None => Err(MalformedHello)
    case Some((ciphers, rest)) => if ciphers == [] || |ciphers| % 2 != 0 then Err(MalformedCiphers) else Ok(rest)
  }

  function SkipCompression(data: seq<byte>): Result<seq<byte>, HelloError> {
    match Split(data, 1)
    case None => Err(MalformedHello)
    case Some((compression, rest)) => if compression == [] then Err(MalformedCompression) else Ok(rest)
  }

  function LastVector(data: seq<byte>): Result<seq<byte>, HelloError> {
    match Split(data, 2)
    case None => Err(MalformedHello)
    case Some((extensions, rest)) => if rest != [] then Err(TrailingBytes) else Ok(extensions)
  }

  function Parse(body: seq<byte>): Result<seq<byte>, HelloError> {
    var afterSession :- SkipSession(body);
    var afterCiphers :- SkipCiphers(afterSession);
    var afterCompression :- SkipCompression(afterCiphers);
    var extensions :- LastVector(afterCompression);
    var name :- ParseExtensions(extensions, None);
    if name.None? then Err(NoServerNameExtension) else Ok(name.value)
  }

  // -------------------------------------------------------------------- the parser itself

  /** The cursor that the body parser moves. */
  class Cursor {
    const body: seq<byte>
    var position: nat

    ghost predicate Valid()
      reads this
    {
      position <= |body|
    }

    constructor (body: seq<byte>)
      ensures Valid() && this.body == body && position == 0
    {
      this.body := body;
      position := 0;
    }

    /** The next `size` bytes, or nothing and no move when fewer are left. */
    method Take(size: nat) returns (value: Option<seq<byte>>)
      requires Valid()
      modifies this
      ensures Valid()
      ensures value.Some? <==> old(position) + size <= |body|
      ensures value.Some? ==> position == old(position) + size && value.value == body[old(position)..position]
      ensures value.None? ==> position == old(position)
    {
      if position + size > |body| {
        return None;
      }
      value := Some(body[position..position + size]);
      position := position + size;
    }

    /** The next length-prefixed vector. */
    method TakeVector(lengthBytes: nat) returns (value: Option<seq<byte>>)
      requires Valid()
      modifies this
      ensures Valid()
      ensures match Split(body[old(position)..], lengthBytes)
              case None => value == None
              case Some((content, rest)) => value == Some(content) && body[position..] == rest
    {
      ghost var start := position;
      var prefix := Take(lengthBytes);
      if prefix.None? {
        return None;
      }
      assert body[start..][..lengthBytes] == prefix.value;
      value := Take(Number(prefix.value));
      if value.Some? {
        assert body[start..][lengthBytes..lengthBytes + Number(prefix.value)] == value.value;
        assert body[start..][lengthBytes + Number(prefix.value)..] == body[position..];
      }
    }
  }

  /** The host name in the value of a server_name extension. */
  method ReadServerName(value: seq<byte>) returns (name: Result<seq<byte>, HelloError>)
    ensures name == ParseServerName(value)
  {
    if |value| < 2 {
      return Err(InvalidServerName);
    }
    var namesSize := Number(value[..2]);
    if namesSize != |value| - 2 {
      return Err(InvalidServerNameList);
    }
    var names := value[2..];
    if |names| < 3 || names[0] != 0 {
      return Err(HostNameRequired);
    }
    var hostSize := Number(names[1..3]);
    if hostSize != |names| - 3 {
      return Err(MultipleNames);
    }
    if !IsAscii(names[3..]) {
      return Err(NotAscii);
    }
    var serverName := Lower(names[3..]);
    if !IsDnsHost(serverName) || serverName[|serverName| - 1] == 46 {
      return Err(NotCanonical);
    }
    return Ok(serverName);
  }

  /** The cursor loop over the extensions block. */
  method ServerNameIn(extensions: seq<byte>) returns (name: Result<Option<seq<byte>>, HelloError>)
    ensures name == ParseExtensions(extensions, None)
  {
    var cursor := 0;
    var serverName: Option<seq<byte>> := None;
    assert extensions[0..] == extensions;
    while cursor < |extensions|
      invariant 0 <= cursor <= |extensions|
      invariant ParseExtensions(extensions[cursor..], serverName) == ParseExtensions(extensions, None)
      decreases |extensions| - cursor
    {
      ghost var start := cursor;
      if cursor + 4 > |extensions| {
        return Err(MalformedExtensions);
      }
      Sequences.DropTake(extensions, start, 2);
      Sequences.DropSlice(extensions, start, 2, 4);
      var kind := Number(extensions[cursor..cursor + 2]);
      var size := Number(extensions[cursor + 2..cursor + 4]);
      cursor := cursor + 4;
      var end := cursor + size;
      if end > |extensions| {
        return Err(MalformedExtensionLength);
      }
      Sequences.DropSlice(extensions, start, 4, 4 + size);
      Sequences.DropDrop(extensions, start, 4 + size);
      var value := extensions[cursor..end];
      cursor := end;
      if kind != 0 {
        continue;
      }
      if serverName.Some? {
        return Err(InvalidServerName);
      }
      var host := ReadServerName(value);
      if host.Err? {
        return Err(host.error);
      }
      serverName := Some(host.value);
    }
    return Ok(serverName);
  }

  method ClientHelloSni(body: seq<byte>) returns (name: Result<seq<byte>, HelloError>)
    ensures name == Parse(body)
  {
    var cursor := new Cursor(body);
    var prologue := cursor.Take(2 + 32);
    if prologue.None? {
      return Err(MalformedHello);
    }
    var session := cursor.TakeVector(1);
    if session.None? {
      return Err(MalformedHello);
    }
    var cipherSuites := cursor.TakeVector(2);
    if cipherSuites.None? {
      return Err(MalformedHello);
    }
    if |cipherSuites.value| == 0 || |cipherSuites.value| % 2 != 0 {
      return Err(MalformedCiphers);
    }
    var compression := cursor.TakeVector(1);
    if compression.None? {
      return Err(MalformedHello);
    }
    if |compression.value| == 0 {
      return Err(MalformedCompression);
    }
    var extensions := cursor.TakeVector(2);
    if extensions.None? {
      return Err(MalformedHello);
    }
    if cursor.position != |body| {
      return Err(TrailingBytes);
    }
    var found := ServerNameIn(extensions.value);
    if found.Err? {
      return Err(found.error);
    }
    if found.value.None? {
      return Err(NoServerNameExtension);
    }
    return Ok(found.value.value);
  }

  // ------------------------------------------------------------ parsing undoes printing

  lemma SplitUndoesVector(width: nat, content: seq<byte>, rest: seq<byte>)
    requires |content| < Power256(width)
    ensures Split(Vector(width, content) + rest, width) == Some((content, rest))
  {
    NumberOfEncoded(|content|, width);
    var data := Vector(width, content) + rest;
    assert data[..width] == Encoded(|content|, width);
    assert data[width..width + |content|] == content;
    assert data[width + |content|..] == rest;
  }

  lemma VectorUndoesSplit(data: seq<byte>, width: nat)
    requires Split(data, width).Some?
    ensures var (content, rest) := Split(data, width).value;
            |content| < Power256(width) && data == Vector(width, content) + rest
  {
    EncodedOfNumber(data[..width]);
  }

  lemma Powers()
    ensures Power256(1) == 256 && Power256(2) == 65536
  {
    assert Power256(2) == 256 * Power256(1);
  }

  /** The value of a server_name extension is accepted exactly when it is the entry of a host name
      whose lowercase form is canonical. */
  lemma ServerNameAccepted(value: seq<byte>) returns (host: seq<byte>)
    requires ParseServerName(value).Ok?
    ensures |value| < 65538 && value == HostEntry(host)
    ensures IsDnsHost(Lower(host)) && ParseServerName(value) == Ok(Lower(host))
  {
    Powers();
    host := value[2..][3..];
    EncodedOfNumber(value[..2]);
    EncodedOfNumber(value[2..][1..3]);
    var names := value[2..];
    assert names == [0] + (names[1..3] + host);
    assert value == value[..2] + names;
  }

  lemma ServerNamePrinted(host: seq<byte>)
    requires IsDnsHost(Lower(host))
    ensures ParseServerName(HostEntry(host)) == Ok(Lower(host))
  {
    Powers();
    var names := [0] + Vector(2, host);
    VectorParts(2, names);
    VectorParts(2, host);
    Sequences.DropPrefix([0], Vector(2, host));
    Sequences.DropTake(names, 1, 2);
    Sequences.DropDrop(names, 1, 2);
    DnsHostIsAscii(Lower(host));
    LowerIsAscii(host);
  }

  lemma VectorParts(width: nat, content: seq<byte>)
    requires |content| < Power256(width)
    ensures |Vector(width, content)| == width + |content|
    ensures Number(Vector(width, content)[..width]) == |content| && Vector(width, content)[width..] == content
  {
    NumberOfEncoded(|content|, width);
    assert Vector(width, content)[..width] == Encoded(|content|, width);
  }

  lemma PrintExtensionSplits(e: Extension, rest: seq<byte>)
    requires FitsExtension(e)
    ensures var data := PrintExtension(e) + rest;
            && |data| >= 4 && Number(data[..2]) == e.kind && Number(data[2..4]) == |e.value|
            && 4 + |e.value| <= |data| && data[4..4 + |e.value|] == e.value && data[4 + |e.value|..] == rest
  {
    Powers();
    NumberOfEncoded(e.kind, 2);
    NumberOfEncoded(|e.value|, 2);
    var data := PrintExtension(e) + rest;
    assert data[..2] == Encoded(e.kind, 2);
    assert data[2..4] == Encoded(|e.value|, 2);
    assert data[4..4 + |e.value|] == e.value;
    assert data[4 + |e.value|..] == rest;
  }

  /** What the extension loop does with the first of several printed extensions. */
  lemma ParsePrintedHead(es: seq<Extension>, found: Option<seq<byte>>)
    requires es != [] && FitsExtension(es[0])
    ensures ParseExtensions(PrintExtensions(es), found)
         == if es[0].kind != 0 then ParseExtensions(PrintExtensions(es[1..]), found)
            else if found.Some? then Err(InvalidServerName)
            else match ParseServerName(es[0].value)
                 case Err(e) => Err(e)
                 case Ok(name) => ParseExtensions(PrintExtensions(es[1..]), Some(name))
  {
    PrintExtensionSplits(es[0], PrintExtensions(es[1..]));
  }

  lemma {:induction false} OtherExtensionsPrinted(es: seq<Extension>, found: Option<seq<byte>>)
    requires forall k :: 0 <= k < |es| ==> FitsExtension(es[k])
    requires NoServerName(es)
    ensures ParseExtensions(PrintExtensions(es), found) == Ok(found)
  {
    if es != [] {
      ParsePrintedHead(es, found);
      OtherExtensionsPrinted(es[1..], found);
    }
  }

  lemma {:induction false} ExtensionsPrinted(es: seq<Extension>, host: seq<byte>)
    requires forall k :: 0 <= k < |es| ==> FitsExtension(es[k])
    requires SoleHost(es, host) && IsDnsHost(Lower(host))
    ensures ParseExtensions(PrintExtensions(es), None) == Ok(Some(Lower(host)))
  {
    ParsePrintedHead(es, None);
    if es[0].kind == 0 {
      assert es[0] == Extension(0, HostEntry(host)) && NoServerName(es[1..]) by { SoleHostHead(es, host); }
      ServerNamePrinted(host);
      OtherExtensionsPrinted(es[1..], Some(Lower(host)));
    } else {
      SoleHostHead(es, host);
      ExtensionsPrinted(es[1..], host);
    }
  }

  lemma SoleHostHead(es: seq<Extension>, host: seq<byte>)
    requires SoleHost(es, host)
    ensures es != []
    ensures if es[0].kind == 0 then es[0] == Extension(0, HostEntry(host)) && NoServerName(es[1..]) else SoleHost(es[1..], host)
  {
    var k :| 0 <= k < |es| && es[k] == Extension(0, HostEntry(host)) && NoServerName(es[..k]) && NoServerName(es[k + 1..]);
    if k > 0 {
      assert es[..k][0] == es[0];
      assert es[1..][k - 1] == es[k];
      assert es[1..][..k - 1] == es[..k][1..];
      Sequences.DropDrop(es, 1, k);
      assert es[1..][k - 1 + 1..] == es[k + 1..];
    }
  }

  lemma {:induction false} ExtensionsAccepted(data: seq<byte>, found: Option<seq<byte>>)
      returns (es: seq<Extension>, host: seq<byte>)
    requires ParseExtensions(data, found).Ok?
    ensures PrintExtensions(es) == data && forall k :: 0 <= k < |es| ==> FitsExtension(es[k])
    ensures var name := ParseExtensions(data, found).value;
            if name == found then NoServerName(es)
            else found.None? && SoleHost(es, host) && IsDnsHost(Lower(host)) && name == Some(Lower(host))
    decreases |data|
  {
    es, host := [], [];
    if data != [] {
      Powers();
      var size := Number(data[2..4]);
      var value := data[4..4 + size];
      var rest := data[4 + size..];
      var head := Extension(Number(data[..2]), value);
      PrintOfParsedHead(data);
      if head.kind != 0 {
        es, host := ExtensionsAccepted(rest, found);
        ConsExtension(head, es);
        if ParseExtensions(data, found).value != found { ConsSoleHost(head, es, host); }
      } else {
        var entry := ServerNameAccepted(value);
        es, host := ExtensionsAccepted(rest, Some(Lower(entry)));
        ConsExtension(head, es);
        host := entry;
        assert ([head] + es)[0] == Extension(0, HostEntry(host)) && ([head] + es)[..0] == [] && ([head] + es)[1..] == es;
        assert SoleHost([head] + es, host);
      }
      es := [head] + es;
    }
  }

  lemma PrintOfParsedHead(data: seq<byte>)
    requires |data| >= 4 && 4 + Number(data[2..4]) <= |data|
    ensures var size := Number(data[2..4]);
            && FitsExtension(Extension(Number(data[..2]), data[4..4 + size]))
            && data == PrintExtension(Extension(Number(data[..2]), data[4..4 + size])) + data[4 + size..]
  {
    Powers();
    EncodedOfNumber(data[..2]);
    EncodedOfNumber(data[2..4]);
    var size := Number(data[2..4]);
    assert data == data[..2] + (data[2..4] + data[4..4 + size]) + data[4 + size..];
  }

  lemma ConsExtension(head: Extension, es: seq<Extension>)
    ensures PrintExtensions([head] + es) == PrintExtension(head) + PrintExtensions(es)
  {
    assert ([head] + es)[1..] == es;
  }

  lemma ConsSoleHost(head: Extension, es: seq<Extension>, host: seq<byte>)
    requires head.kind != 0 && SoleHost(es, host)
    ensures SoleHost([head] + es, host)
  {
    var k :| 0 <= k < |es| && es[k] == Extension(0, HostEntry(host)) && NoServerName(es[..k]) && NoServerName(es[k + 1..]);
    var all := [head] + es;
    assert all[k + 1] == es[k] && all[..k + 1] == [head] + es[..k] && all[k + 2..] == es[k + 1..];
  }

  lemma SessionPrinted(h: Hello)
    requires WellFormed(h)
    ensures SkipSession(Print(h)) == Ok(Vector(2, h.ciphers) + (Vector(1, h.compression) + Vector(2, PrintExtensions(h.extensions))))
  {
    var rest := Vector(2, h.ciphers) + (Vector(1, h.compression) + Vector(2, PrintExtensions(h.extensions)));
    Sequences.DropPrefix(h.prologue, Vector(1, h.session) + rest);
    Powers();
    SplitUndoesVector(1, h.session, rest);
  }

  lemma BlockPrinted(h: Hello)
    requires WellFormed(h)
    ensures SkipCiphers(Vector(2, h.ciphers) + (Vector(1, h.compression) + Vector(2, PrintExtensions(h.extensions))))
         == Ok(Vector(1, h.compression) + Vector(2, PrintExtensions(h.extensions)))
    ensures SkipCompression(Vector(1, h.compression) + Vector(2, PrintExtensions(h.extensions)))
         == Ok(Vector(2, PrintExtensions(h.extensions)))
    ensures LastVector(Vector(2, PrintExtensions(h.extensions))) == Ok(PrintExtensions(h.extensions))
  {
    var block := PrintExtensions(h.extensions);
    Powers();
    SplitUndoesVector(2, h.ciphers, Vector(1, h.compression) + Vector(2, block));
    SplitUndoesVector(1, h.compression, Vector(2, block));
    SplitUndoesVector(2, block, []);
    assert Vector(2, block) + [] == Vector(2, block);
  }

  /** Parsing undoes printing: a well-formed body with exactly one host name yields that name in
      lower case. */
  lemma ParseUndoesPrint(h: Hello, host: seq<byte>)
    requires WellFormed(h) && SoleHost(h.extensions, host) && IsDnsHost(Lower(host))
    ensures Parse(Print(h)) == Ok(Lower(host))
  {
    SessionPrinted(h);
    BlockPrinted(h);
    ExtensionsPrinted(h.extensions, host);
  }

  /** Printing undoes parsing: every accepted body is the printing of such a structure. */
  lemma AcceptedIsPrinted(body: seq<byte>) returns (h: Hello, host: seq<byte>)
    requires Parse(body).Ok?
    ensures WellFormed(h) && Print(h) == body && SoleHost(h.extensions, host)
    ensures IsDnsHost(Lower(host)) && Parse(body) == Ok(Lower(host))
  {
    Powers();
    var (session, afterSession) := Split(body[34..], 1).value;
    var (ciphers, afterCiphers) := Split(afterSession, 2).value;
    var (compression, afterCompression) := Split(afterCiphers, 1).value;
    var (block, rest) := Split(afterCompression, 2).value;
    VectorUndoesSplit(body[34..], 1);
    VectorUndoesSplit(afterSession, 2);
    VectorUndoesSplit(afterCiphers, 1);
    VectorUndoesSplit(afterCompression, 2);
    assert Vector(2, block) + rest == Vector(2, block);
    var es, name := ExtensionsAccepted(block, None);
    host := name;
    h := Hello(body[..34], session, ciphers, compression, es);
    assert body == body[..34] + body[34..];
  }

  ghost predicate DescribesHost(h: Hello, body: seq<byte>, host: seq<byte>) {
    WellFormed(h) && Print(h) == body && SoleHost(h.extensions, host) && IsDnsHost(Lower(host))
  }

  /** The parser accepts exactly the printed bodies with one canonical host name, and what it
      returns is that name in lower case. */
  lemma AcceptsExactlyThePrintedBodies(body: seq<byte>, name: seq<byte>)
    ensures Parse(body) == Ok(name) <==> exists h, host :: DescribesHost(h, body, host) && name == Lower(host)
  {
    if Parse(body) == Ok(name) {
      var h, host := AcceptedIsPrinted(body);
      assert DescribesHost(h, body, host);
    }
    if exists h, host :: DescribesHost(h, body, host) && name == Lower(host) {
      var h, host :| DescribesHost(h, body, host) && name == Lower(host);
      ParseUndoesPrint(h, host);
    }
  }
}
