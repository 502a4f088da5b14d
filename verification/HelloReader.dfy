/** Reading the first TLS handshake message from a client (runtime_assets/codex_connect_proxy.py).
    The record layout is that of section 5.1 of RFC 8446. */
module HelloReader {
  import opened Wrappers
  import opened ClientHello
  import Sequences

  const MAX_CLIENT_HELLO_BYTES := 65536
  const MAX_TLS_RECORD_BYTES := 16640

  datatype Failure =
    | TimedOut | Broken | Closed
    | NotHandshakeRecord | TooLarge | NotClientHello
    | BadHello(error: HelloError)
    | NameMismatch

  // ------------------------------------------------------------------------- the socket

  /** What the network does at one `recv` call: it times out, it fails, or it delivers at most
      `limit` of the bytes that are left (but at least one, unless the stream is at its end). */
  datatype Delivery = Timeout | Reset | Deliver(limit: nat)

  function Min(a: nat, b: nat): nat {
    if a < b then a else b
  }

  /** A client socket: the bytes the client sends before closing, and the network's behaviour at
      each call. After the listed calls every byte asked for is delivered. */
  class ClientSocket {
    const stream: seq<byte>
    const network: seq<Delivery>
    var position: nat
    var calls: nat

    ghost predicate Valid()
      reads this
    {
      position <= |stream|
    }

    /** The bytes not yet taken. */
    function Rest(): seq<byte>
      requires Valid()
      reads this
    {
      stream[position..]
    }

    /** The network never times out and never fails. */
    predicate Steady() {
      forall k :: 0 <= k < |network| ==> network[k].Deliver?
    }

    constructor (stream: seq<byte>, network: seq<Delivery>)
      ensures Valid() && Rest() == stream && this.network == network
    {
      this.stream := stream;
      this.network := network;
      position, calls := 0, 0;
      new;
      assert stream[0..] == stream;
    }

    /** Between one and `size` of the next bytes, or none at the end of the stream. */
    method Recv(size: nat) returns (chunk: Result<seq<byte>, Failure>)
      requires Valid() && size > 0
      modifies this
      ensures Valid()
      ensures chunk.Err? ==> !Steady() && (chunk.error == TimedOut || chunk.error == Broken) && Rest() == old(Rest())
      ensures chunk.Ok? ==> |chunk.value| <= size && chunk.value + Rest() == old(Rest())
      ensures chunk.Ok? ==> (chunk.value == [] <==> old(Rest()) == [])
    {
      var limit := size;
      if calls < |network| {
        var now := network[calls];
        calls := calls + 1;
        if now.Timeout? {
          return Err(TimedOut);
        }
        if now.Reset? {
          return Err(Broken);
        }
        limit := if now.limit == 0 then 1 else Min(size, now.limit);
      }
      var count := Min(limit, |stream| - position);
      chunk := Ok(stream[position..position + count]);
      position := position + count;
    }
  }

  /** Exactly the next `size` bytes, however the network cuts them. */
  method ReadExact(client: ClientSocket, size: nat) returns (data: Result<seq<byte>, Failure>)
    requires client.Valid()
    modifies client
    ensures client.Valid()
    ensures data.Ok? ==> |data.value| == size && data.value + client.Rest() == old(client.Rest())
    ensures data.Err? ==> data.error == TimedOut || data.error == Broken || data.error == Closed
    ensures data == Err(Closed) ==> size > |old(client.Rest())|
    ensures data.Err? && client.Steady() ==> data.error == Closed
  {
    var bytes := [];
    ghost var all := client.Rest();
    while |bytes| < size
      invariant client.Valid() && |bytes| <= size
      invariant bytes + client.Rest() == all
      decreases size - |bytes|
    {
      ghost var before := client.Rest();
      var chunk := client.Recv(size - |bytes|);
      if chunk.Err? {
        return Err(chunk.error);
      }
      if |chunk.value| == 0 {
        return Err(Closed);
      }
      Sequences.AppendAssociates(bytes, chunk.value, client.Rest());
      bytes := bytes + chunk.value;
    }
    return Ok(bytes);
  }

  // ---------------------------------------------------------- reading, as a function

  predicate ValidHeader(header: seq<byte>)
    requires |header| == 5
  {
    && header[0] == 22 && header[1] == 3 && 1 <= header[2] < 5
    && 1 <= Number(header[3..5]) <= MAX_TLS_RECORD_BYTES
  }

  /** The announced size of the handshake message whose first bytes are known. */
  function Announced(handshake: seq<byte>): nat
    requires |handshake| >= 4
  {
    4 + Number(handshake[1..4])
  }

  predicate Complete(handshake: seq<byte>) {
    |handshake| >= 4 && |handshake| >= Announced(handshake)
  }

  function CheckStart(handshake: seq<byte>): Option<Failure> {
    if |handshake| < 4 then None
    else if handshake[0] != 1 then Some(NotClientHello)
    else if Announced(handshake) > MAX_CLIENT_HELLO_BYTES then Some(TooLarge)
    else None
  }

  /** The header and payload of the next record, when `taken` bytes were read before it. */
  function NextRecord(rest: seq<byte>, taken: nat): (record: Result<(seq<byte>, seq<byte>), Failure>)
    ensures record.Ok? ==> |record.value.0| == 5 && 5 + |record.value.1| <= |rest|
  {
    if |rest| < 5 then Err(Closed)
    else if !ValidHeader(rest[..5]) then Err(NotHandshakeRecord)
    else
      var size := Number(rest[..5][3..5]);
      if taken + 5 + size > MAX_CLIENT_HELLO_BYTES then Err(TooLarge)
      else if 5 + size > |rest| then Err(Closed)
      else Ok((rest[..5], rest[5..5 + size]))
  }

  /** Collects records from `rest` until the handshake message is complete; `taken` bytes were
      read before. Returns the number of bytes read in all and the collected payload. */
  function Collect(rest: seq<byte>, taken: nat, handshake: seq<byte>): Result<(nat, seq<byte>), Failure>
    decreases |rest|
  {
    if Complete(handshake) then Ok((taken, handshake))
    else
      match NextRecord(rest, taken)
      case Err(failure) => Err(failure)
      case Ok((header, payload)) =>
        match CheckStart(handshake + payload)
        case Some(failure) => Err(failure)
        case None => Collect(rest[5 + |payload|..], taken + 5 + |payload|, handshake + payload)
  }

  /** The verdict on a complete handshake message. */
  function Verdict(taken: nat, handshake: seq<byte>, host: seq<byte>): Result<nat, Failure>
    requires Complete(handshake)
  {
    match Parse(handshake[4..Announced(handshake)])
    case Err(e) => Err(BadHello(e))
    case Ok(name) => if name != host then Err(NameMismatch) else Ok(taken)
  }

  lemma {:induction false} CollectedIsComplete(rest: seq<byte>, taken: nat, handshake: seq<byte>)
    ensures Collect(rest, taken, handshake).Ok? ==> Complete(Collect(rest, taken, handshake).value.1)
    decreases |rest|
  {
    if !Complete(handshake) && NextRecord(rest, taken).Ok? {
      var payload := NextRecord(rest, taken).value.1;
      CollectedIsComplete(rest[5 + |payload|..], taken + 5 + |payload|, handshake + payload);
    }
  }

  /** How many bytes of `stream` the reader takes when it accepts, or why it refuses. */
  function Read(stream: seq<byte>, host: seq<byte>): Result<nat, Failure> {
    match Collect(stream, 0, [])
    case Err(failure) => Err(failure)
    case Ok((taken, handshake)) =>
      CollectedIsComplete(stream, 0, []);
      Verdict(taken, handshake, host)
  }

  /** One turn of `Collect`. */
  lemma CollectTurn(rest: seq<byte>, taken: nat, handshake: seq<byte>)
    requires !Complete(handshake)
    ensures match NextRecord(rest, taken)
            case Err(failure) => Collect(rest, taken, handshake) == Err(failure)
            case Ok((header, payload)) =>
              match CheckStart(handshake + payload)
              case Some(failure) => Collect(rest, taken, handshake) == Err(failure)
              case None =>
                Collect(rest, taken, handshake) == Collect(rest[5 + |payload|..], taken + 5 + |payload|, handshake + payload)
  {
    hide NextRecord, CheckStart;
  }

  lemma ReadRefused(stream: seq<byte>, host: seq<byte>, failure: Failure)
    requires Collect(stream, 0, []) == Err(failure)
    ensures Read(stream, host) == Err(failure)
  {
    hide Collect;
  }

  lemma ReadCollected(stream: seq<byte>, host: seq<byte>, taken: nat, handshake: seq<byte>)
    requires Collect(stream, 0, []) == Ok((taken, handshake))
    ensures Complete(handshake) && Read(stream, host) == Verdict(taken, handshake, host)
  {
    CollectedIsComplete(stream, 0, []);
    hide Collect;
  }

  // ----------------------------------------------------------------------- the reader

  /** One record: its bytes, or the failure that ends the reading. */
  method ReadRecord(client: ClientSocket, taken: nat) returns (record: Result<(seq<byte>, seq<byte>), Failure>)
    requires client.Valid()
    modifies client
    ensures client.Valid()
    ensures record == NextRecord(old(client.Rest()), taken) || (record.Err? && SocketFailure(record.error))
    ensures record.Err? && client.Steady() ==> !SocketFailure(record.error)
    ensures record.Ok? ==> |record.value.0| == 5 && record.value.0 + record.value.1 + client.Rest() == old(client.Rest())
    ensures record.Ok? ==> taken + 5 + |record.value.1| <= MAX_CLIENT_HELLO_BYTES
  {
    ghost var rest := client.Rest();
    var header := ReadExact(client, 5);
    if header.Err? {
      return Err(header.error);
    }
    assert header.value == rest[..5];
    if !ValidHeader(header.value) {
      return Err(NotHandshakeRecord);
    }
    var recordSize := Number(header.value[3..5]);
    if taken + 5 + recordSize > MAX_CLIENT_HELLO_BYTES {
      return Err(TooLarge);
    }
    var payload := ReadExact(client, recordSize);
    if payload.Err? {
      return Err(payload.error);
    }
    Sequences.AppendAssociates(header.value, payload.value, client.Rest());
    assert payload.value == rest[5..5 + recordSize];
    return Ok((header.value, payload.value));
  }

  /** The next record of a stream that starts with one. */
  lemma NextRecordInFront(header: seq<byte>, payload: seq<byte>, rest: seq<byte>, taken: nat)
    requires |header| == 5 && ValidHeader(header) && |payload| == Number(header[3..5])
    requires taken + 5 + |payload| <= MAX_CLIENT_HELLO_BYTES
    ensures NextRecord(header + payload + rest, taken) == Ok((header, payload))
    ensures (header + payload + rest)[5 + |payload|..] == rest
  {
    var all := header + payload + rest;
    assert all[..5] == header;
    assert all[5..5 + |payload|] == payload;
  }

  predicate SocketFailure(failure: Failure) {
    failure == TimedOut || failure == Broken
  }

  method ReadAuthorizedClientHello(client: ClientSocket, expectedHost: seq<byte>) returns (result: Result<seq<byte>, Failure>)
    requires client.Valid()
    modifies client
    ensures client.Valid()
    // exactly the bytes taken from the socket, and no more than fit the relay's buffer
    ensures result.Ok? ==> result.value + client.Rest() == old(client.Rest()) && |result.value| <= MAX_CLIENT_HELLO_BYTES
    // the outcome depends on the client's bytes alone, unless the socket itself times out or fails
    ensures result.Ok? ==> Read(old(client.Rest()), expectedHost) == Ok(|result.value|)
    ensures result.Err? && !SocketFailure(result.error) ==> Read(old(client.Rest()), expectedHost) == Err(result.error)
    ensures client.Steady() && result.Err? ==> !SocketFailure(result.error)
  {
    hide Collect, NextRecord, Read;
    ghost var stream := client.Rest();
    ghost var goal := Collect(stream, 0, []);
    var raw, handshake := [], [];
    var expectedSize: Option<nat> := None;
    while expectedSize.None? || |handshake| < expectedSize.value
      invariant client.Valid() && raw + client.Rest() == stream
      invariant |raw| <= MAX_CLIENT_HELLO_BYTES
      invariant expectedSize == if |handshake| < 4 then None else Some(Announced(handshake))
      invariant CheckStart(handshake) == None
      invariant goal == Collect(client.Rest(), |raw|, handshake)
      decreases |client.Rest()|
    {
      ghost var rest := client.Rest();
      CollectTurn(rest, |raw|, handshake);
      var record := ReadRecord(client, |raw|);
      if record.Err? {
        if !SocketFailure(record.error) { ReadRefused(stream, expectedHost, record.error); }
        return Err(record.error);
      }
      var (header, payload) := record.value;
      RestAfter(rest, header, payload, client.Rest());
      AnnouncedIsStable(handshake, payload);
      Sequences.AppendAssociates(raw, header + payload, client.Rest());
      raw := raw + (header + payload);
      handshake := handshake + payload;
      if |handshake| >= 4 && expectedSize.None? {
        if handshake[0] != 1 {
          ReadRefused(stream, expectedHost, NotClientHello);
          return Err(NotClientHello);
        }
        expectedSize := Some(4 + Number(handshake[1..4]));
        if expectedSize.value > MAX_CLIENT_HELLO_BYTES {
          ReadRefused(stream, expectedHost, TooLarge);
          return Err(TooLarge);
        }
      }
    }
    assert Complete(handshake);
    CollectDone(client.Rest(), |raw|, handshake);
    ReadCollected(stream, expectedHost, |raw|, handshake);
    var serverName := ClientHelloSni(handshake[4..expectedSize.value]);
    if serverName.Err? {
      return Err(BadHello(serverName.error));
    }
    if serverName.value != expectedHost {
      return Err(NameMismatch);
    }
    return Ok(raw);
  }

  lemma RestAfter(rest: seq<byte>, header: seq<byte>, payload: seq<byte>, after: seq<byte>)
    requires |header| == 5 && header + payload + after == rest
    ensures rest[5 + |payload|..] == after
  {
  }

  lemma CollectDone(rest: seq<byte>, taken: nat, handshake: seq<byte>)
    requires Complete(handshake)
    ensures Collect(rest, taken, handshake) == Ok((taken, handshake))
  {
  }

  lemma AnnouncedIsStable(handshake: seq<byte>, more: seq<byte>)
    ensures |handshake| >= 4 ==> Announced(handshake + more) == Announced(handshake) && (handshake + more)[0] == handshake[0]
  {
    if |handshake| >= 4 {
      assert (handshake + more)[1..4] == handshake[1..4];
    }
  }

  // ---------------------------------------------------- independence from the splitting

  datatype Record = Record(minor: byte, payload: seq<byte>)

  predicate ValidRecord(r: Record) {
    1 <= r.minor < 5 && 1 <= |r.payload| <= MAX_TLS_RECORD_BYTES
  }

  predicate ValidRecords(rs: seq<Record>) {
    forall k :: 0 <= k < |rs| ==> ValidRecord(rs[k])
  }

  function Header(r: Record): seq<byte> {
    [22, 3, r.minor] + Encoded(|r.payload|, 2)
  }

  function Printed(rs: seq<Record>): seq<byte> {
    if rs == [] then [] else Header(rs[0]) + rs[0].payload + Printed(rs[1..])
  }

  function Payloads(rs: seq<Record>): seq<byte> {
    if rs == [] then [] else rs[0].payload + Payloads(rs[1..])
  }

  /** A handshake message of the given type. */
  function Message(kind: byte, body: seq<byte>): seq<byte> {
    [kind] + Encoded(|body|, 3) + body
  }

  lemma HeaderIsValid(r: Record)
    requires ValidRecord(r)
    ensures |Header(r)| == 5 && ValidHeader(Header(r)) && Number(Header(r)[3..5]) == |r.payload|
  {
    Powers();
    NumberOfEncoded(|r.payload|, 2);
    assert Header(r)[3..5] == Encoded(|r.payload|, 2);
  }

  lemma Power3()
    ensures Power256(3) == 16777216
  {
    Powers();
    assert Power256(3) == 256 * Power256(2);
  }

  /** What a message announces is its own length, as soon as four of its bytes are there. */
  lemma PrefixOfMessage(kind: byte, body: seq<byte>, prefix: seq<byte>, more: seq<byte>)
    requires |body| < 16777216 && prefix + more == Message(kind, body)
    ensures |prefix| >= 4 ==> prefix[0] == kind && Announced(prefix) == |Message(kind, body)|
    ensures more != [] ==> !Complete(prefix)
  {
    Power3();
    NumberOfEncoded(|body|, 3);
    var message := Message(kind, body);
    assert |message| == 4 + |body|;
    if |prefix| >= 4 {
      assert message[0] == prefix[0];
      assert message[1..4] == Encoded(|body|, 3);
      assert message[1..4] == prefix[1..4];
    }
  }

  lemma {:induction false} CollectOfRecords(rs: seq<Record>, tail: seq<byte>, taken: nat,
                                            handshake: seq<byte>, kind: byte, body: seq<byte>)
    requires ValidRecords(rs) && |body| < 16777216
    requires handshake + Payloads(rs) == Message(kind, body)
    requires taken + |Printed(rs)| <= MAX_CLIENT_HELLO_BYTES && |handshake| <= taken
    requires kind == 1 || |handshake| < 4
    ensures Collect(Printed(rs) + tail, taken, handshake)
         == if kind == 1 then Ok((taken + |Printed(rs)|, Message(kind, body))) else Err(NotClientHello)
    decreases |rs|
  {
    hide Collect, NextRecord;
    if rs == [] {
      assert Printed(rs) == [] && handshake == Message(kind, body);
      assert handshake + [] == handshake;
      PrefixOfMessage(kind, body, handshake, []);
      CollectDone(Printed(rs) + tail, taken, handshake);
    } else {
      var r := rs[0];
      var longer := handshake + r.payload;
      var rest := Printed(rs[1..]) + tail;
      FirstRecord(rs, tail, taken);
      PrefixOfMessage(kind, body, handshake, Payloads(rs));
      CollectTurn(Printed(rs) + tail, taken, handshake);
      Sequences.AppendAssociates(handshake, r.payload, Payloads(rs[1..]));
      PrefixOfMessage(kind, body, longer, Payloads(rs[1..]));
      PayloadsFit(rs);
      if kind == 1 || |longer| < 4 {
        CollectOfRecords(rs[1..], tail, taken + 5 + |r.payload|, longer, kind, body);
      }
    }
  }

  lemma FirstRecord(rs: seq<Record>, tail: seq<byte>, taken: nat)
    requires rs != [] && ValidRecord(rs[0]) && taken + |Printed(rs)| <= MAX_CLIENT_HELLO_BYTES
    ensures NextRecord(Printed(rs) + tail, taken) == Ok((Header(rs[0]), rs[0].payload))
    ensures (Printed(rs) + tail)[5 + |rs[0].payload|..] == Printed(rs[1..]) + tail
    ensures |Printed(rs)| == 5 + |rs[0].payload| + |Printed(rs[1..])|
  {
    var r := rs[0];
    HeaderIsValid(r);
    Sequences.AppendAssociates(Header(r) + r.payload, Printed(rs[1..]), tail);
    NextRecordInFront(Header(r), r.payload, Printed(rs[1..]) + tail, taken);
  }

  lemma {:induction false} PayloadsFit(rs: seq<Record>)
    ensures |Payloads(rs)| <= |Printed(rs)|
  {
    if rs != [] {
      PayloadsFit(rs[1..]);
    }
  }

  /** The verdict on a handshake message does not depend on how it is cut into records: every
      cutting into valid records that fit the limit gives the verdict on the body. */
  lemma VerdictIgnoresSplitting(rs: seq<Record>, tail: seq<byte>, kind: byte, body: seq<byte>, host: seq<byte>)
    requires ValidRecords(rs) && |body| < 16777216 && Payloads(rs) == Message(kind, body)
    requires |Printed(rs)| <= MAX_CLIENT_HELLO_BYTES
    ensures Read(Printed(rs) + tail, host)
         == if kind != 1 then Err(NotClientHello)
            else match Parse(body)
                 case Err(e) => Err(BadHello(e))
                 case Ok(name) => if name == host then Ok(|Printed(rs)|) else Err(NameMismatch)
  {
    assert [] + Payloads(rs) == Payloads(rs);
    CollectOfRecords(rs, tail, 0, [], kind, body);
    hide Collect, NextRecord;
    if kind == 1 {
      ReadCollected(Printed(rs) + tail, host, |Printed(rs)|, Message(kind, body));
      hide Read;
      assert Message(kind, body) + [] == Message(kind, body);
      PrefixOfMessage(kind, body, Message(kind, body), []);
      assert Message(kind, body)[4..] == body;
    } else {
      ReadRefused(Printed(rs) + tail, host, NotClientHello);
    }
  }

  /** Conversely, what is accepted is a sequence of valid records that carry a ClientHello for the
      expected host; only the last record may carry bytes beyond it. */
  lemma {:induction false} CollectedAreRecords(rest: seq<byte>, taken: nat, handshake: seq<byte>) returns (rs: seq<Record>)
    requires Collect(rest, taken, handshake).Ok? && taken <= MAX_CLIENT_HELLO_BYTES
    requires CheckStart(handshake) == None
    ensures var (total, collected) := Collect(rest, taken, handshake).value;
            && ValidRecords(rs) && total == taken + |Printed(rs)| && total <= MAX_CLIENT_HELLO_BYTES
            && |Printed(rs)| <= |rest| && rest[..|Printed(rs)|] == Printed(rs)
            && collected == handshake + Payloads(rs) && CheckStart(collected) == None
            && (rs != [] ==> !Complete(handshake + Payloads(rs[..|rs| - 1])))
    decreases |rest|
  {
    hide Collect, NextRecord, CheckStart;
    rs := [];
    if Complete(handshake) {
      CollectDone(rest, taken, handshake);
      assert handshake + [] == handshake;
    } else {
      CollectTurn(rest, taken, handshake);
      var r := NextRecordIsRecord(rest, taken);
      var after := rest[5 + |r.payload|..];
      var longer := handshake + r.payload;
      var more := CollectedAreRecords(after, taken + 5 + |r.payload|, longer);
      rs := [r] + more;
      RecordsInFront(rest, r, more);
      PayloadsInFront(handshake, r, more);
    }
  }

  lemma NextRecordIsRecord(rest: seq<byte>, taken: nat) returns (r: Record)
    requires NextRecord(rest, taken).Ok?
    ensures ValidRecord(r) && NextRecord(rest, taken) == Ok((Header(r), r.payload))
    ensures 5 + |r.payload| <= |rest| && rest[..5] == Header(r) && rest[5..5 + |r.payload|] == r.payload
    ensures taken + 5 + |r.payload| <= MAX_CLIENT_HELLO_BYTES
  {
    var (header, payload) := NextRecord(rest, taken).value;
    r := Record(header[2], payload);
    EncodedOfNumber(header[3..5]);
    assert header == [header[0], header[1], header[2]] + header[3..5];
  }

  /** Without the last record, the handshake is what it was before that record. */
  lemma PayloadsInFront(handshake: seq<byte>, r: Record, more: seq<Record>)
    ensures handshake + r.payload + Payloads(more) == handshake + Payloads([r] + more)
    ensures more == [] ==> handshake + Payloads(([r] + more)[..|more|]) == handshake
    ensures more != [] ==>
      handshake + Payloads(([r] + more)[..|more|]) == handshake + r.payload + Payloads(more[..|more| - 1])
  {
    assert ([r] + more)[1..] == more;
    Sequences.AppendAssociates(handshake, r.payload, Payloads(more));
    if more == [] {
      assert ([r] + more)[..|more|] == [];
      assert handshake + [] == handshake;
    } else {
      var init := [r] + more[..|more| - 1];
      assert ([r] + more)[..|more|] == init && init[1..] == more[..|more| - 1];
      Sequences.AppendAssociates(handshake, r.payload, Payloads(more[..|more| - 1]));
    }
  }

  lemma RecordsInFront(rest: seq<byte>, r: Record, more: seq<Record>)
    requires |rest| >= 5 + |r.payload| && rest[..5] == Header(r) && rest[5..5 + |r.payload|] == r.payload
    requires |Printed(more)| <= |rest| - 5 - |r.payload|
    requires rest[5 + |r.payload|..][..|Printed(more)|] == Printed(more)
    ensures |Printed([r] + more)| == 5 + |r.payload| + |Printed(more)|
    ensures |Printed([r] + more)| <= |rest| && rest[..|Printed([r] + more)|] == Printed([r] + more)
  {
    assert ([r] + more)[1..] == more;
    var n := 5 + |r.payload|;
    Sequences.DropTake(rest, n, |Printed(more)|);
    assert rest[..n + |Printed(more)|] == rest[..5] + rest[5..n] + rest[n..n + |Printed(more)|];
  }

  /** Records whose payload is a complete ClientHello for `host`, and complete only with the last
      of them. */
  ghost predicate CarriesHello(rs: seq<Record>, host: seq<byte>, body: seq<byte>, extra: seq<byte>) {
    && ValidRecords(rs) && rs != [] && |Printed(rs)| <= MAX_CLIENT_HELLO_BYTES
    && Payloads(rs) == Message(1, body) + extra && Parse(body) == Ok(host)
    && |extra| < |rs[|rs| - 1].payload|
  }

  lemma RecordsFromStart(stream: seq<byte>, taken: nat, handshake: seq<byte>) returns (rs: seq<Record>)
    requires Collect(stream, 0, []) == Ok((taken, handshake))
    ensures ValidRecords(rs) && taken == |Printed(rs)| && taken <= MAX_CLIENT_HELLO_BYTES
    ensures |Printed(rs)| <= |stream| && stream[..|Printed(rs)|] == Printed(rs)
    ensures handshake == Payloads(rs) && CheckStart(handshake) == None
    ensures rs != [] ==> !Complete(Payloads(rs[..|rs| - 1]))
  {
    assert CheckStart([]) == None;
    hide *;
    rs := CollectedAreRecords(stream, 0, []);
    Sequences.EmptyInFront(Payloads(rs));
    if rs != [] {
      Sequences.EmptyInFront(Payloads(rs[..|rs| - 1]));
    }
  }

  lemma AcceptedAreRecords(stream: seq<byte>, host: seq<byte>) returns (rs: seq<Record>, body: seq<byte>, extra: seq<byte>)
    requires Read(stream, host).Ok?
    ensures CarriesHello(rs, host, body, extra)
    ensures Read(stream, host) == Ok(|Printed(rs)|)
    ensures |Printed(rs)| <= |stream| && stream[..|Printed(rs)|] == Printed(rs)
  {
    hide Collect, Read, Parse, CheckStart, Message, Number, Printed, Payloads;
    var taken, handshake := AcceptedIsCollected(stream, host);
    rs := RecordsFromStart(stream, taken, handshake);
    body := handshake[4..Announced(handshake)];
    extra := handshake[Announced(handshake)..];
    MessageInFront(handshake);
    LastRecordCompletes(rs);
  }

  lemma LastRecordCompletes(rs: seq<Record>)
    requires Complete(Payloads(rs)) && (rs != [] ==> !Complete(Payloads(rs[..|rs| - 1])))
    ensures rs != [] && |Payloads(rs)| - Announced(Payloads(rs)) < |rs[|rs| - 1].payload|
  {
    LastPayload(rs);
    AnnouncedIsStable(Payloads(rs[..|rs| - 1]), rs[|rs| - 1].payload);
  }

  lemma AcceptedIsCollected(stream: seq<byte>, host: seq<byte>) returns (taken: nat, handshake: seq<byte>)
    requires Read(stream, host).Ok?
    ensures Collect(stream, 0, []).Ok? && Collect(stream, 0, []).value == (taken, handshake) && Complete(handshake)
    ensures 4 <= Announced(handshake) <= |handshake|
    ensures Read(stream, host) == Ok(taken) && Parse(handshake[4..Announced(handshake)]) == Ok(host)
  {
    CollectedIsComplete(stream, 0, []);
    hide Collect;
    taken := Collect(stream, 0, []).value.0;
    handshake := Collect(stream, 0, []).value.1;
  }

  lemma MessageInFront(handshake: seq<byte>)
    requires Complete(handshake) && CheckStart(handshake) == None
    ensures handshake == Message(1, handshake[4..Announced(handshake)]) + handshake[Announced(handshake)..]
  {
    var size := Announced(handshake);
    EncodedOfNumber(handshake[1..4]);
    assert handshake == [handshake[0]] + handshake[1..4] + handshake[4..size] + handshake[size..];
  }

  lemma {:induction false} LastPayload(rs: seq<Record>)
    requires rs != []
    ensures Payloads(rs) == Payloads(rs[..|rs| - 1]) + rs[|rs| - 1].payload
  {
    var last := rs[|rs| - 1].payload;
    var rest := rs[1..];
    if rest == [] {
      assert rs[..0] == [];
      Sequences.EmptyInFront(last);
    } else {
      LastPayload(rest);
      var init := rs[..|rs| - 1];
      assert rest[..|rest| - 1] == init[1..];
      Sequences.AppendAssociates(rs[0].payload, Payloads(init[1..]), last);
    }
  }

  // ------------------------------------------------------------------------- refused streams

  /** Three bytes, most significant first. */
  function Big(a: byte, b: byte, c: byte): nat {
    65536 * (a as int) + 256 * (b as int) + (c as int)
  }

  /** A handshake message that is begun as a ClientHello of a permitted size and not complete. */
  predicate Unfinished(p: seq<byte>) {
    |p| >= 4 ==> p[0] == 1 && |p| < 4 + Big(p[1], p[2], p[3]) <= 65536
  }

  /** Why a stream is refused at the record that `rest` begins with, after `taken` bytes of records with these
      payloads; nothing if it is not. */
  function Refusal(payloads: seq<byte>, taken: nat, rest: seq<byte>): Option<Failure> {
    if |rest| < 5 then Some(Closed)
    else
      var size := Big(0, rest[3], rest[4]);
      if rest[0] != 22 || rest[1] != 3 || rest[2] < 1 || rest[2] > 4 || size < 1 || size > 16640 then
        Some(NotHandshakeRecord)
      else if taken + 5 + size > 65536 then Some(TooLarge)
      else if |rest| < 5 + size then Some(Closed)
      else
        var p := payloads + rest[5..5 + size];
        if |p| < 4 then None
        else if p[0] != 1 then Some(NotClientHello)
        else if 4 + Big(p[1], p[2], p[3]) > 65536 then Some(TooLarge)
        else None
  }

  lemma NumberOfBytes(bytes: seq<byte>)
    ensures |bytes| == 2 ==> Number(bytes) == Big(0, bytes[0], bytes[1])
    ensures |bytes| == 3 ==> Number(bytes) == Big(bytes[0], bytes[1], bytes[2])
  {
    if |bytes| == 2 || |bytes| == 3 {
      var front := bytes[..|bytes| - 1];
      assert front[..1] == [bytes[0]] && Number([bytes[0]]) == bytes[0] by {
        assert [bytes[0]][..0] == [];
      }
      assert |front| == 2 ==> Number(front) == 256 * Number(front[..1]) + front[1];
      assert |front| == 1 ==> front == [bytes[0]];
    }
  }

  lemma AnnouncedIs(p: seq<byte>)
    ensures |p| >= 4 ==> Announced(p) == 4 + Big(p[1], p[2], p[3])
  {
    if |p| >= 4 {
      NumberOfBytes(p[1..4]);
    }
  }

  lemma UnfinishedIs(p: seq<byte>)
    ensures Unfinished(p) <==> CheckStart(p) == None && !Complete(p)
  {
    AnnouncedIs(p);
    hide Announced;
  }

  lemma UnfinishedPrefix(p: seq<byte>, more: seq<byte>)
    requires Unfinished(p + more)
    ensures Unfinished(p)
  {
    assert |p| >= 4 ==> (p + more)[..4] == p[..4];
    assert |p| >= 4 ==> forall k :: 0 <= k < 4 ==> (p + more)[k] == p[k];
  }

  /** Records that leave the message unfinished are passed over. */
  lemma {:induction false} CollectSkips(rs: seq<Record>, rest: seq<byte>, taken: nat, handshake: seq<byte>)
    requires ValidRecords(rs) && taken + |Printed(rs)| <= MAX_CLIENT_HELLO_BYTES
    requires Unfinished(handshake + Payloads(rs))
    ensures Collect(Printed(rs) + rest, taken, handshake)
            == Collect(rest, taken + |Printed(rs)|, handshake + Payloads(rs))
    decreases |rs|
  {
    hide Collect, NextRecord, Unfinished, ValidRecord;
    if rs == [] {
      assert Printed(rs) + rest == rest && handshake + Payloads(rs) == handshake;
    } else {
      var r, more := rs[0], rs[1..];
      assert [r] + more == rs && ValidRecord(r) && ValidRecords(more);
      PayloadsInFront(handshake, r, more);
      FirstRecord(rs, rest, taken);
      hide Printed, Payloads;
      UnfinishedPrefix(handshake + r.payload, Payloads(more));
      CollectSkipsOne(Printed(rs) + rest, taken, handshake, r);
      CollectSkips(more, rest, taken + 5 + |r.payload|, handshake + r.payload);
    }
  }

  lemma CollectSkipsOne(rest: seq<byte>, taken: nat, handshake: seq<byte>, r: Record)
    requires NextRecord(rest, taken) == Ok((Header(r), r.payload)) && Unfinished(handshake + r.payload)
    ensures Collect(rest, taken, handshake)
            == Collect(rest[5 + |r.payload|..], taken + 5 + |r.payload|, handshake + r.payload)
  {
    UnfinishedPrefix(handshake, r.payload);
    UnfinishedIs(handshake);
    UnfinishedIs(handshake + r.payload);
    CollectTurn(rest, taken, handshake);
    hide *;
  }

  lemma CollectRefuses(rest: seq<byte>, taken: nat, handshake: seq<byte>)
    requires Unfinished(handshake) && Refusal(handshake, taken, rest).Some?
    ensures Collect(rest, taken, handshake) == Err(Refusal(handshake, taken, rest).value)
  {
    UnfinishedIs(handshake);
    CollectTurn(rest, taken, handshake);
    hide Collect, Complete;
    if |rest| >= 5 {
      NumberOfBytes(rest[..5][3..5]);
      var size := Number(rest[..5][3..5]);
      if |rest| >= 5 + size {
        AnnouncedIs(handshake + rest[5..5 + size]);
      }
    }
    hide Number, Announced;
  }

  /** A stream is refused at the first record for which there is a reason, and for that reason. */
  lemma RefusedAtTheRecord(rs: seq<Record>, rest: seq<byte>, host: seq<byte>)
    requires ValidRecords(rs) && |Printed(rs)| <= MAX_CLIENT_HELLO_BYTES && Unfinished(Payloads(rs))
    requires Refusal(Payloads(rs), |Printed(rs)|, rest).Some?
    ensures Read(Printed(rs) + rest, host) == Err(Refusal(Payloads(rs), |Printed(rs)|, rest).value)
  {
    hide *;
    Sequences.EmptyInFront(Payloads(rs));
    CollectSkips(rs, rest, 0, []);
    CollectRefuses(rest, |Printed(rs)|, Payloads(rs));
    ReadRefused(Printed(rs) + rest, host, Refusal(Payloads(rs), |Printed(rs)|, rest).value);
  }

  /** Every stream from which no message can be collected is refused in this way. */
  lemma {:induction false} RefusedHasReason(rest: seq<byte>, taken: nat, handshake: seq<byte>)
    returns (rs: seq<Record>, at: seq<byte>)
    requires Collect(rest, taken, handshake).Err? && Unfinished(handshake) && taken <= MAX_CLIENT_HELLO_BYTES
    ensures ValidRecords(rs) && rest == Printed(rs) + at && taken + |Printed(rs)| <= MAX_CLIENT_HELLO_BYTES
    ensures Unfinished(handshake + Payloads(rs))
    ensures Refusal(handshake + Payloads(rs), taken + |Printed(rs)|, at) == Some(Collect(rest, taken, handshake).error)
    decreases |rest|
  {
    hide Collect, Refusal, Unfinished, Printed, Payloads, ValidRecord, ValidRecords;
    if Refusal(handshake, taken, rest).Some? {
      CollectRefuses(rest, taken, handshake);
      NoRecords(rest, handshake);
      hide *;
      rs, at := [], rest;
    } else {
      var r, after := PassedRecord(rest, taken, handshake);
      hide *;
      rs, at := RefusedHasReason(after, taken + 5 + |r.payload|, handshake + r.payload);
      PrintedInFront(r, rs, at);
      PayloadsInFront(handshake, r, rs);
      OneMoreIsValid(r, rs);
      rs := [r] + rs;
    }
  }

  lemma NoRecords(rest: seq<byte>, handshake: seq<byte>)
    ensures ValidRecords([]) && Printed([]) + rest == rest && |Printed([])| == 0 && handshake + Payloads([]) == handshake
  {
  }

  lemma OneMoreIsValid(r: Record, rs: seq<Record>)
    requires ValidRecord(r) && ValidRecords(rs)
    ensures ValidRecords([r] + rs)
  {
  }

  lemma PrintedInFront(r: Record, rs: seq<Record>, at: seq<byte>)
    ensures Printed([r] + rs) + at == Header(r) + r.payload + (Printed(rs) + at)
    ensures |Printed([r] + rs)| == 5 + |r.payload| + |Printed(rs)|
  {
    assert ([r] + rs)[1..] == rs;
    Sequences.AppendAssociates(Header(r) + r.payload, Printed(rs), at);
  }

  /** A record without a reason to refuse it, that does not complete a message that is refused later. */
  lemma PassedRecord(rest: seq<byte>, taken: nat, handshake: seq<byte>) returns (r: Record, after: seq<byte>)
    requires Collect(rest, taken, handshake).Err? && Unfinished(handshake) && Refusal(handshake, taken, rest).None?
    ensures ValidRecord(r) && rest == Header(r) + r.payload + after
    ensures taken + 5 + |r.payload| <= MAX_CLIENT_HELLO_BYTES && Unfinished(handshake + r.payload)
    ensures Collect(after, taken + 5 + |r.payload|, handshake + r.payload) == Collect(rest, taken, handshake)
  {
    hide *;
    PassedHeader(rest, taken, handshake);
    r := NextRecordIsRecord(rest, taken);
    after := rest[5 + |r.payload|..];
    RestIs(rest, |r.payload|);
    UnfinishedIs(handshake);
    CollectTurn(rest, taken, handshake);
    UnfinishedIs(handshake + r.payload);
    NotYetComplete(after, taken + 5 + |r.payload|, handshake + r.payload);
  }

  lemma NotYetComplete(rest: seq<byte>, taken: nat, handshake: seq<byte>)
    requires Collect(rest, taken, handshake).Err?
    ensures !Complete(handshake)
  {
    hide Complete;
  }

  lemma PassedHeader(rest: seq<byte>, taken: nat, handshake: seq<byte>)
    requires Refusal(handshake, taken, rest).None?
    ensures NextRecord(rest, taken).Ok? && CheckStart(handshake + NextRecord(rest, taken).value.1) == None
  {
    NumberOfBytes(rest[..5][3..5]);
    var size := Number(rest[..5][3..5]);
    AnnouncedIs(handshake + rest[5..5 + size]);
    hide Number, Announced;
  }

  lemma RestIs(rest: seq<byte>, n: nat)
    requires 5 + n <= |rest|
    ensures rest == rest[..5] + rest[5..5 + n] + rest[5 + n..]
  {
  }
}
