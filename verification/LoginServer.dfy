/** The two ends of the handshake as they run over a connection, step by step. */
module LoginServer {
  import opened Basics
  import opened KeyExchange
  import opened BlockCipherMode
  import opened Login
  import Base64

  /** One end of a connection: what the peer has written, one element per write, and what this end wrote. */
  class Connection {
    var inbound: seq<Bytes>
    var outbound: seq<Output>

    constructor (inbound: seq<Bytes>)
      ensures this.inbound == inbound && outbound == []
    {
      this.inbound, outbound := inbound, [];
    }

    method Write(o: Output)
      modifies this`outbound
      ensures outbound == old(outbound) + [o]
    {
      outbound := outbound + [o];
    }

    /** A single Read into a 1024-byte buffer, trimmed and decoded from base64. */
    method ReadLine(k: Codec) returns (decoded: Option<Bytes>)
      modifies this`inbound
      ensures decoded.None? <==> ReadDecoded(k, old(inbound)).None?
      ensures decoded.Some? ==> ReadDecoded(k, old(inbound)) == Some((decoded.value, inbound))
    {
      if inbound == [] { return None; }
      var packet, later := inbound[0], inbound[1..];
      if |packet| <= READ_SIZE {
        assert FirstRead(packet) == packet;
        inbound := later;
      } else {
        inbound := [packet[READ_SIZE..]] + later;
        packet := packet[..READ_SIZE];
      }
      decoded := Base64.Decode(k, TrimSpace(packet));
    }
  }

  method ReceiveToken(conn: Connection, c: Crypto, gameServers: set<Bytes>, secret: Bytes) returns (outcome: ServerOutcome)
    requires LawfulCrypto(c) && |secret| == 8
    modifies conn
    ensures var s := JudgeToken(c, gameServers, secret, old(conn.inbound));
            outcome == s.outcome && conn.outbound == old(conn.outbound) + s.sent
  {
    var encrypted := conn.ReadLine(c.base64);
    if encrypted.None? { return Dropped; }
    if |encrypted.value| % 8 != 0 { return Panicked; }
    var token := DESDecode(c.cipher, secret, encrypted.value);
    var auth := AuthHandler(c.base64, gameServers, token);
    if auth.Err? {
      conn.Write(Status(403));
    }
    return Judged(token, auth);
  }

  method ReceiveHmac(conn: Connection, c: Crypto, gameServers: set<Bytes>, challenge: Bytes, secret: Bytes)
    returns (outcome: ServerOutcome)
    requires LawfulCrypto(c) && |secret| == 8
    modifies conn
    ensures var s := CheckHmac(c, gameServers, challenge, secret, old(conn.inbound));
            outcome == s.outcome && conn.outbound == old(conn.outbound) + s.sent
  {
    var clientHmac := conn.ReadLine(c.base64);
    if clientHmac.None? { return Dropped; }
    if clientHmac.value != Hmac64(c, challenge, secret) {
      conn.Write(Status(401));
      return HmacRejected;
    }
    outcome := ReceiveToken(conn, c, gameServers, secret);
  }

  /** The server's side, from the challenge to the verdict of the authentication handler. */
  method HandleConnection(conn: Connection, c: Crypto, gameServers: set<Bytes>, challenge: Bytes, serverPrivate: Bytes)
    returns (outcome: ServerOutcome)
    requires LawfulCrypto(c) && |serverPrivate| == 8 && conn.outbound == []
    modifies conn
    ensures Stage(outcome, conn.outbound) == ServerRun(c, gameServers, challenge, serverPrivate, old(conn.inbound))
  {
    conn.Write(Text(Line(c.base64, challenge)));
    assert conn.outbound == [Text(Line(c.base64, challenge))];
    var clientKey := conn.ReadLine(c.base64);
    if clientKey.None? { return Dropped; }
    var serverPublic := DHExchange(serverPrivate);
    conn.Write(Text(Line(c.base64, serverPublic[..])));
    if |clientKey.value| != 8 { return Panicked; }
    var secret := DHSecret(serverPrivate, clientKey.value);
    outcome := ReceiveHmac(conn, c, gameServers, challenge, secret[..]);
  }

  /** The honest client's side, given the two lines it reads from the server. */
  method PerformLogin(c: Crypto, clientPrivate: Bytes, user: Bytes, server: Bytes, password: Bytes, challengeLine: Bytes, keyLine: Bytes)
    returns (written: Option<seq<Bytes>>)
    requires LawfulCrypto(c) && |clientPrivate| == 8
    ensures written == ClientRun(c, clientPrivate, user, server, password, challengeLine, keyLine)
  {
    var challenge := Base64.Decode(c.base64, TrimSpace(challengeLine));
    if challenge.None? { return None; }
    var clientPublic := DHExchange(clientPrivate);
    var serverPublic := Base64.Decode(c.base64, TrimSpace(keyLine));
    if serverPublic.None? || |serverPublic.value| != 8 { return None; }
    var shared := DHSecret(clientPrivate, serverPublic.value);
    var secret := shared[..];
    var hmac := Hmac64(c, challenge.value, secret);
    var encrypted := DESEncode(c.cipher, secret, Token(c.base64, user, server, password));
    return Some([Line(c.base64, clientPublic[..]), Line(c.base64, hmac), Line(c.base64, encrypted[..])]);
  }

  /** Both sides together, each write of the client reaching the server as one packet. */
  method HonestHandshake(c: Crypto, gameServers: set<Bytes>, challenge: Bytes, serverPrivate: Bytes, clientPrivate: Bytes,
                         user: Bytes, server: Bytes, password: Bytes) returns (outcome: ServerOutcome)
    requires LawfulCrypto(c) && |challenge| == 8 && |serverPrivate| == 8 && |clientPrivate| == 8
    ensures outcome.Judged?
    ensures outcome.auth.Ok? <==>
      |Padded(Token(c.base64, user, server, password))| <= 768 && password == PASSWORD && server in gameServers
    ensures |Padded(Token(c.base64, user, server, password))| <= 768 ==>
      outcome.auth == if password != PASSWORD then Err(WrongPassword)
                      else if server !in gameServers then Err(UnknownServer)
                      else Ok((server, user))
  {
    HonestLogin(c, gameServers, challenge, serverPrivate, clientPrivate, user, server, password);
    var written := PerformLogin(c, clientPrivate, user, server, password, Line(c.base64, challenge), Line(c.base64, PublicKey(serverPrivate)));
    var conn := new Connection(written.value);
    outcome := HandleConnection(conn, c, gameServers, challenge, serverPrivate);
  }
}
