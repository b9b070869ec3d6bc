/** Binary messages of the UDP variant (src/serialize.c, src/deserialize.c). */
module UdpCodec {
  import opened Base

  const CONFIRM: byte := 0x00
  const REPLY: byte := 0x01
  const AUTH: byte := 0x02
  const JOIN: byte := 0x03
  const MSG: byte := 0x04
  const PING: byte := 0xFD
  const ERR: byte := 0xFE
  const BYE: byte := 0xFF

  datatype Message =
    | ConfirmMsg(id: Id)
    | ReplyMsg(id: Id, result: byte, ref: Id, content: CString)
    | AuthMsg(id: Id, username: CString, name: CString, secret: CString)
    | JoinMsg(id: Id, channel: CString, name: CString)
    | ChatMsg(id: Id, name: CString, content: CString)
    | PingMsg(id: Id)
    | ErrMsg(id: Id, name: CString, content: CString)
    | ByeMsg(id: Id, name: CString)

  /** A 16-bit number in network byte order. */
  function Short(id: Id): Bytes {
    [id / 0x100, id % 0x100]
  }

  function FromShort(hi: byte, lo: byte): Id {
    hi as int * 0x100 + lo as int
  }

  function Header(t: byte, id: Id): Bytes {
    [t] + Short(id)
  }

  function Field(f: CString): Bytes {
    f + [0]
  }

  function Type(m: Message): byte {
    match m
    case ConfirmMsg(_) => CONFIRM
    case ReplyMsg(_, _, _, _) => REPLY
    case AuthMsg(_, _, _, _) => AUTH
    case JoinMsg(_, _, _) => JOIN
    case ChatMsg(_, _, _) => MSG
    case PingMsg(_) => PING
    case ErrMsg(_, _, _) => ERR
    case ByeMsg(_, _) => BYE
  }

  /** What follows the header. */
  function Body(m: Message): Bytes {
    match m
    case ConfirmMsg(_) => []
    case ReplyMsg(_, result, ref, content) => [result] + Short(ref) + Field(content)
    case AuthMsg(_, username, name, secret) => Field(username) + (Field(name) + Field(secret))
    case JoinMsg(_, channel, name) => Field(channel) + Field(name)
    case ChatMsg(_, name, content) => Field(name) + Field(content)
    case PingMsg(_) => []
    case ErrMsg(_, name, content) => Field(name) + Field(content)
    case ByeMsg(_, name) => Field(name)
  }

  /** The datagram layouts of the protocol, section "Message Contents" of the repository's README. */
  function Encode(m: Message): Bytes {
    Header(Type(m), m.id) + Body(m)
  }

  /** Bytes 1 and 2 of a datagram, as `(buffer[1] << 8) | buffer[2]` and as `ntohs` read them. */
  function MsgId(d: Bytes): Id
    requires |d| >= 3
  {
    FromShort(d[1], d[2])
  }

  lemma EncodedId(m: Message)
    ensures |Encode(m)| >= 3 && MsgId(Encode(m)) == m.id
  {
  }

  /** The first of two fields ends inside the datagram; the terminator the listener appends serves the last field only. */
  predicate NameTerminated(d: Bytes) {
    |d| >= 3 && d[0] in {MSG, ERR} ==> 3 + Strlen(d[3..]) < |d|
  }

  function Name(d: Bytes): CString
    requires |d| >= 3
  {
    CStr(d[3..])
  }

  function Content(d: Bytes): CString
    requires |d| >= 3 && 3 + Strlen(d[3..]) < |d|
  {
    CStr(d[4 + Strlen(d[3..])..])
  }

  /** What the deserializers return; `None` is the null pointer, or a type the client cannot read. */
  function Decode(d: Bytes): Option<Message>
    requires NameTerminated(d)
  {
    if |d| < 3 then None
    else if d[0] == CONFIRM then Some(ConfirmMsg(MsgId(d)))
    else if d[0] == PING then Some(PingMsg(MsgId(d)))
    else if d[0] == REPLY && |d| >= 8 then Some(ReplyMsg(MsgId(d), d[3], FromShort(d[4], d[5]), CStr(d[6..])))
    else if d[0] == MSG && |d| >= 7 then Some(ChatMsg(MsgId(d), Name(d), Content(d)))
    else if d[0] == ERR && |d| >= 7 then Some(ErrMsg(MsgId(d), Name(d), Content(d)))
    else if d[0] == BYE && |d| >= 5 then Some(ByeMsg(MsgId(d), Name(d)))
    else None
  }

  predicate Readable(m: Message) {
    !m.AuthMsg? && !m.JoinMsg?
  }

  /** The minimum sizes of the deserializers, restated on the fields. */
  predicate LongEnough(m: Message) {
    match m
    case ReplyMsg(_, _, _, content) => |content| >= 1
    case ChatMsg(_, name, content) => |name| + |content| >= 2
    case ErrMsg(_, name, content) => |name| + |content| >= 2
    case ByeMsg(_, name) => |name| >= 1
    case _ => true
  }

  lemma HeaderReads(t: byte, id: Id, body: Bytes)
    ensures var d := Header(t, id) + body; |d| == 3 + |body| && d[0] == t && MsgId(d) == id && d[3..] == body
  {
  }

  lemma TwoFields(h: Bytes, name: CString, content: CString)
    requires |h| == 3
    ensures var d := h + (Field(name) + Field(content));
            && 3 + Strlen(d[3..]) == 3 + |name| < |d|
            && Name(d) == name && Content(d) == content
  {
    var d := h + (Field(name) + Field(content));
    assert d[3..] == name + [0] + Field(content);
    StrlenOfField(name, Field(content));
    assert d[4 + |name|..] == content + [0] + [];
    StrlenOfField(content, []);
  }

  lemma DecodeReply(id: Id, result: byte, ref: Id, content: CString)
    ensures var m := ReplyMsg(id, result, ref, content);
            Decode(Encode(m)) == if |content| >= 1 then Some(m) else None
  {
    var d := Encode(ReplyMsg(id, result, ref, content));
    assert d[6..] == content + [0] + [];
    StrlenOfField(content, []);
  }

  lemma DecodeBye(id: Id, name: CString)
    ensures var m := ByeMsg(id, name);
            Decode(Encode(m)) == if |name| >= 1 then Some(m) else None
  {
    var d := Encode(ByeMsg(id, name));
    assert d[3..] == name + [0] + [];
    StrlenOfField(name, []);
  }

  /** MSG and ERR. */
  lemma DecodeText(id: Id, name: CString, content: CString, t: byte)
    requires t in {MSG, ERR}
    ensures var d := Header(t, id) + (Field(name) + Field(content));
      && NameTerminated(d)
      && Decode(d) == if |name| + |content| < 2 then None
                      else Some(if t == MSG then ChatMsg(id, name, content) else ErrMsg(id, name, content))
  {
    TwoFields(Header(t, id), name, content);
    HeaderReads(t, id, Field(name) + Field(content));
  }

  /** Decoding undoes encoding exactly for the messages that reach the deserializer's minimum size. */
  lemma DecodeEncode(m: Message)
    requires Readable(m)
    ensures NameTerminated(Encode(m))
    ensures Decode(Encode(m)) == if LongEnough(m) then Some(m) else None
  {
    match m
    case ReplyMsg(id, result, ref, content) => DecodeReply(id, result, ref, content);
    case ChatMsg(id, name, content) => DecodeText(id, name, content, MSG);
    case ErrMsg(id, name, content) => DecodeText(id, name, content, ERR);
    case ByeMsg(id, name) => DecodeBye(id, name);
    case _ => EncodedId(m);
  }

  /** The shortest messages below the minimum sizes: the client reads them as null. */
  lemma ShortMessagesReadAsNull(id: Id, result: byte)
    ensures Decode(Encode(ByeMsg(id, []))) == None && Decode(Encode(ReplyMsg(id, result, 0, []))) == None
    ensures NameTerminated(Encode(ChatMsg(id, [0x61], []))) && Decode(Encode(ChatMsg(id, [0x61], []))) == None
  {
    DecodeEncode(ByeMsg(id, []));
    DecodeEncode(ReplyMsg(id, result, 0, []));
    DecodeEncode(ChatMsg(id, [0x61], []));
  }

  lemma FieldIsPrefix(s: Bytes)
    ensures Field(CStr(s)) <= s + [0]
  {
    var n := Strlen(s);
    assert (s + [0])[n] == 0;
    assert (s + [0])[..n] == s[..n];
  }

  lemma PrefixAfter(h: Bytes, p: Bytes, s: Bytes)
    requires h <= s && p <= s[|h|..]
    ensures h + p <= s
  {
    assert s == h + s[|h|..];
  }

  lemma TwoFieldsArePrefix(d: Bytes)
    requires |d| >= 3 && 3 + Strlen(d[3..]) < |d|
    ensures Field(Name(d)) + Field(Content(d)) <= (d + [0])[3..]
  {
    var n := Strlen(d[3..]);
    var s := (d + [0])[3..];
    assert s == d[3..] + [0];
    assert s[n] == d[3..][n];
    assert Field(Name(d)) <= s;
    FieldIsPrefix(d[4 + n..]);
    assert s[n + 1..] == d[4 + n..] + [0];
    PrefixAfter(Field(Name(d)), Field(Content(d)), s);
  }

  lemma HeaderIsPrefix(d: Bytes, body: Bytes)
    requires |d| >= 3 && body <= (d + [0])[3..]
    ensures Header(d[0], MsgId(d)) + body <= d + [0]
  {
    assert Header(d[0], MsgId(d)) <= d + [0];
    PrefixAfter(Header(d[0], MsgId(d)), body, d + [0]);
  }

  lemma ReplyBodyIsPrefix(d: Bytes)
    requires |d| >= 8
    ensures [d[3]] + Short(FromShort(d[4], d[5])) + Field(CStr(d[6..])) <= (d + [0])[3..]
  {
    var s, h := (d + [0])[3..], [d[3]] + Short(FromShort(d[4], d[5]));
    assert h <= s;
    FieldIsPrefix(d[6..]);
    assert s[3..] == d[6..] + [0];
    PrefixAfter(h, Field(CStr(d[6..])), s);
  }

  /** The fields read from a datagram, written again, start it again behind the header. */
  lemma BodyIsPrefix(d: Bytes)
    requires NameTerminated(d) && Decode(d).Some?
    ensures Body(Decode(d).value) <= (d + [0])[3..]
  {
    if d[0] == REPLY {
      ReplyBodyIsPrefix(d);
    } else if d[0] in {MSG, ERR} {
      TwoFieldsArePrefix(d);
    } else if d[0] == BYE {
      FieldIsPrefix(d[3..]);
      assert (d + [0])[3..] == d[3..] + [0];
    }
  }

  lemma DecodedHeader(d: Bytes)
    requires NameTerminated(d) && Decode(d).Some?
    ensures |d| >= 3 && Type(Decode(d).value) == d[0] && Decode(d).value.id == MsgId(d)
  {
  }

  /** Encoding a decoded datagram reproduces it up to its last terminator. */
  lemma EncodeDecode(d: Bytes)
    requires NameTerminated(d) && Decode(d).Some?
    ensures Encode(Decode(d).value) <= d + [0]
  {
    DecodedHeader(d);
    BodyIsPrefix(d);
    HeaderIsPrefix(d, Body(Decode(d).value));
  }

  /** A terminated field can be taken off the front of a buffer in one way only. */
  lemma FieldPrefixFree(f: CString, r: Bytes, g: CString, t: Bytes)
    requires Field(f) + r == Field(g) + t
    ensures f == g && r == t
  {
    StrlenOfField(f, r);
    StrlenOfField(g, t);
    assert r == (Field(f) + r)[|f| + 1..];
    assert t == (Field(g) + t)[|g| + 1..];
  }

  /** Same for two fields, the tail of JOIN, MSG and ERR. */
  lemma TwoFieldsPrefixFree(f: CString, f': CString, r: Bytes, g: CString, g': CString, t: Bytes)
    requires Field(f) + Field(f') + r == Field(g) + Field(g') + t
    ensures f == g && f' == g' && r == t
  {
    assert Field(f) + (Field(f') + r) == Field(f) + Field(f') + r;
    assert Field(g) + (Field(g') + t) == Field(g) + Field(g') + t;
    FieldPrefixFree(f, Field(f') + r, g, Field(g') + t);
    FieldPrefixFree(f', r, g', t);
  }

  lemma HeaderPrefixFree(a: byte, i: Id, r: Bytes, b: byte, j: Id, t: Bytes)
    requires Header(a, i) + r == Header(b, j) + t
    ensures a == b && i == j && r == t
  {
    var s := Header(a, i) + r;
    assert s[0] == a && s[1] == i / 0x100 && s[2] == i % 0x100;
    assert s[0] == b && s[1] == j / 0x100 && s[2] == j % 0x100;
    assert s[3..] == r;
    assert s[3..] == t;
  }

  lemma BodyPrefixFree(m: Message, r: Bytes, n: Message, t: Bytes)
    requires Type(m) == Type(n) && m.id == n.id && Body(m) + r == Body(n) + t
    ensures m == n && r == t
  {
    match m
    case ReplyMsg(_, result, ref, content) =>
      Assoc([result] + Short(ref), Field(content), r);
      Assoc([n.result] + Short(n.ref), Field(n.content), t);
      HeaderPrefixFree(result, ref, Field(content) + r, n.result, n.ref, Field(n.content) + t);
      FieldPrefixFree(content, r, n.content, t);
    case AuthMsg(_, username, name, secret) =>
      Assoc(Field(username), Field(name) + Field(secret), r);
      Assoc(Field(n.username), Field(n.name) + Field(n.secret), t);
      FieldPrefixFree(username, Field(name) + Field(secret) + r, n.username, Field(n.name) + Field(n.secret) + t);
      TwoFieldsPrefixFree(name, secret, r, n.name, n.secret, t);
    case JoinMsg(_, channel, name) =>
      TwoFieldsPrefixFree(channel, name, r, n.channel, n.name, t);
    case ChatMsg(_, name, content) =>
      TwoFieldsPrefixFree(name, content, r, n.name, n.content, t);
    case ErrMsg(_, name, content) =>
      TwoFieldsPrefixFree(name, content, r, n.name, n.content, t);
    case ByeMsg(_, name) =>
      FieldPrefixFree(name, r, n.name, t);
    case _ =>
      assert [] + r == r && [] + t == t;
  }

  /** The binary encoding is prefix-free, hence injective: no datagram reads as two messages. */
  lemma EncodePrefixFree(m: Message, r: Bytes, n: Message, t: Bytes)
    requires Encode(m) + r == Encode(n) + t
    ensures m == n && r == t
  {
    Assoc(Header(Type(m), m.id), Body(m), r);
    Assoc(Header(Type(n), n.id), Body(n), t);
    HeaderPrefixFree(Type(m), m.id, Body(m) + r, Type(n), n.id, Body(n) + t);
    BodyPrefixFree(m, r, n, t);
  }

  // ----- what the server reads -----

  /** The C strings at the start of a buffer, each one behind the terminator of the one before. */
  function Strings(s: Bytes, n: nat): (fields: seq<CString>)
    ensures |fields| == n
    decreases n
  {
    if n == 0 then []
    else [CStr(s)] + Strings(if Strlen(s) < |s| then s[Strlen(s) + 1..] else [], n - 1)
  }

  lemma StringsOfField(f: CString, rest: Bytes, n: nat)
    requires n > 0
    ensures Strings(Field(f) + rest, n) == [f] + Strings(rest, n - 1)
  {
    StrlenOfField(f, rest);
    assert (Field(f) + rest)[|f| + 1..] == rest;
  }

  lemma StringsOfLast(f: CString)
    ensures Strings(Field(f), 1) == [f]
  {
    assert Field(f) + [] == Field(f);
    StringsOfField(f, [], 1);
  }

  lemma StringsOfTwo(f: CString, g: CString)
    ensures Strings(Field(f) + Field(g), 2) == [f, g]
  {
    StringsOfField(f, Field(g), 2);
    StringsOfLast(g);
  }

  lemma StringsOfThree(f: CString, g: CString, h: CString)
    ensures Strings(Field(f) + (Field(g) + Field(h)), 3) == [f, g, h]
  {
    StringsOfField(f, Field(g) + Field(h), 3);
    StringsOfTwo(g, h);
  }

  /** The layouts of the messages a client sends, read in the order the protocol gives their fields. */
  function ServerReadsBody(t: byte, id: Id, body: Bytes): Option<Message> {
    if t == CONFIRM then Some(ConfirmMsg(id))
    else if t == AUTH then var f := Strings(body, 3); Some(AuthMsg(id, f[0], f[1], f[2]))
    else if t == JOIN then var f := Strings(body, 2); Some(JoinMsg(id, f[0], f[1]))
    else if t == MSG then var f := Strings(body, 2); Some(ChatMsg(id, f[0], f[1]))
    else if t == ERR then var f := Strings(body, 2); Some(ErrMsg(id, f[0], f[1]))
    else if t == BYE then var f := Strings(body, 1); Some(ByeMsg(id, f[0]))
    else None
  }

  function ServerReads(d: Bytes): Option<Message> {
    if |d| < 3 then None else ServerReadsBody(d[0], MsgId(d), d[3..])
  }

  lemma ServerReadsAuth(id: Id, username: CString, name: CString, secret: CString)
    ensures var m := AuthMsg(id, username, name, secret); ServerReadsBody(AUTH, id, Body(m)) == Some(m)
  {
    StringsOfThree(username, name, secret);
  }

  lemma ServerReadsJoin(id: Id, channel: CString, name: CString)
    ensures var m := JoinMsg(id, channel, name); ServerReadsBody(JOIN, id, Body(m)) == Some(m)
  {
    StringsOfTwo(channel, name);
  }

  /** MSG and ERR. */
  lemma ServerReadsText(id: Id, name: CString, content: CString, t: byte)
    requires t in {MSG, ERR}
    ensures ServerReadsBody(t, id, Field(name) + Field(content)) ==
      Some(if t == MSG then ChatMsg(id, name, content) else ErrMsg(id, name, content))
  {
    StringsOfTwo(name, content);
  }

  lemma ServerReadsBye(id: Id, name: CString)
    ensures ServerReadsBody(BYE, id, Field(name)) == Some(ByeMsg(id, name))
  {
    StringsOfLast(name);
  }

  /** A server that follows the protocol reads back every message the client can send. */
  lemma ServerReadsEncoded(m: Message)
    requires !m.ReplyMsg? && !m.PingMsg?
    ensures ServerReads(Encode(m)) == Some(m)
  {
    HeaderReads(Type(m), m.id, Body(m));
    match m
    case AuthMsg(id, username, name, secret) => ServerReadsAuth(id, username, name, secret);
    case JoinMsg(id, channel, name) => ServerReadsJoin(id, channel, name);
    case ChatMsg(id, name, content) => ServerReadsText(id, name, content, MSG);
    case ErrMsg(id, name, content) => ServerReadsText(id, name, content, ERR);
    case ByeMsg(id, name) => ServerReadsBye(id, name);
    case _ =>
  }

  // ----- the bytes on the wire -----

  lemma TwoFieldBytes(h: Bytes, f: CString, g: CString)
    ensures h + (Field(f) + Field(g)) == h + f + [0] + g + [0]
  {
    Assoc(h, Field(f), Field(g));
    Assoc(h, f, [0]);
    Assoc(h + f + [0], g, [0]);
  }

  lemma ThreeFieldBytes(h: Bytes, f: CString, g: CString, k: CString)
    ensures h + (Field(f) + (Field(g) + Field(k))) == h + f + [0] + g + [0] + k + [0]
  {
    Assoc(h, Field(f), Field(g) + Field(k));
    Assoc(h, f, [0]);
    TwoFieldBytes(h + f + [0], g, k);
  }

  lemma AuthBytes(id: Id, username: CString, name: CString, secret: CString)
    ensures Encode(AuthMsg(id, username, name, secret)) ==
      [2, id / 256, id % 256] + username + [0] + name + [0] + secret + [0]
  {
    assert Header(2, id) == [2, id / 256, id % 256];
    ThreeFieldBytes(Header(2, id), username, name, secret);
  }

  lemma JoinBytes(id: Id, channel: CString, name: CString)
    ensures Encode(JoinMsg(id, channel, name)) == [3, id / 256, id % 256] + channel + [0] + name + [0]
  {
    assert Header(3, id) == [3, id / 256, id % 256];
    TwoFieldBytes(Header(3, id), channel, name);
  }

  lemma ChatBytes(id: Id, name: CString, content: CString)
    ensures Encode(ChatMsg(id, name, content)) == [4, id / 256, id % 256] + name + [0] + content + [0]
  {
    assert Header(4, id) == [4, id / 256, id % 256];
    TwoFieldBytes(Header(4, id), name, content);
  }

  lemma ErrBytes(id: Id, name: CString, content: CString)
    ensures Encode(ErrMsg(id, name, content)) == [0xFE, id / 256, id % 256] + name + [0] + content + [0]
  {
    assert Header(0xFE, id) == [0xFE, id / 256, id % 256];
    TwoFieldBytes(Header(0xFE, id), name, content);
  }

  lemma ByeBytes(id: Id, name: CString)
    ensures Encode(ByeMsg(id, name)) == [0xFF, id / 256, id % 256] + name + [0]
  {
  }

  lemma ReplyBytes(id: Id, result: byte, ref: Id, content: CString)
    ensures Encode(ReplyMsg(id, result, ref, content)) ==
      [1, id / 256, id % 256, result, ref / 256, ref % 256] + content + [0]
  {
  }

  /** The layouts of the protocol byte by byte, without the vocabulary of the encoder. */
  lemma WireLayout(m: Message)
    ensures Encode(m) == match m
      case ConfirmMsg(id) => [0, id / 256, id % 256]
      case ReplyMsg(id, result, ref, content) => [1, id / 256, id % 256, result, ref / 256, ref % 256] + content + [0]
      case AuthMsg(id, username, name, secret) => [2, id / 256, id % 256] + username + [0] + name + [0] + secret + [0]
      case JoinMsg(id, channel, name) => [3, id / 256, id % 256] + channel + [0] + name + [0]
      case ChatMsg(id, name, content) => [4, id / 256, id % 256] + name + [0] + content + [0]
      case PingMsg(id) => [0xFD, id / 256, id % 256]
      case ErrMsg(id, name, content) => [0xFE, id / 256, id % 256] + name + [0] + content + [0]
      case ByeMsg(id, name) => [0xFF, id / 256, id % 256] + name + [0]
  {
    match m
    case ReplyMsg(id, result, ref, content) => ReplyBytes(id, result, ref, content);
    case AuthMsg(id, username, name, secret) => AuthBytes(id, username, name, secret);
    case JoinMsg(id, channel, name) => JoinBytes(id, channel, name);
    case ChatMsg(id, name, content) => ChatBytes(id, name, content);
    case ErrMsg(id, name, content) => ErrBytes(id, name, content);
    case ByeMsg(id, name) => ByeBytes(id, name);
    case _ =>
  }

  /** Two bytes in network byte order. */
  function Big(hi: byte, lo: byte): Id {
    256 * (hi as int) + lo as int
  }

  /** What the client reads from a datagram, byte by byte: kinds, minimum sizes, byte order and positions of the fields. */
  lemma DecodeLayout(d: Bytes)
    requires |d| >= 3 && (d[0] in {4, 0xFE} ==> 3 + Strlen(d[3..]) < |d|)
    ensures NameTerminated(d)
    ensures d[0] == 0 ==> Decode(d) == Some(ConfirmMsg(Big(d[1], d[2])))
    ensures d[0] == 1 && |d| < 8 ==> Decode(d) == None
    ensures d[0] == 1 && |d| >= 8 ==> Decode(d) == Some(ReplyMsg(Big(d[1], d[2]), d[3], Big(d[4], d[5]), CStr(d[6..])))
    ensures d[0] in {4, 0xFE} && |d| < 7 ==> Decode(d) == None
    ensures d[0] == 4 && |d| >= 7 ==>
      Decode(d) == Some(ChatMsg(Big(d[1], d[2]), CStr(d[3..]), CStr(d[4 + Strlen(d[3..])..])))
    ensures d[0] == 0xFE && |d| >= 7 ==>
      Decode(d) == Some(ErrMsg(Big(d[1], d[2]), CStr(d[3..]), CStr(d[4 + Strlen(d[3..])..])))
    ensures d[0] == 0xFD ==> Decode(d) == Some(PingMsg(Big(d[1], d[2])))
    ensures d[0] == 0xFF && |d| < 5 ==> Decode(d) == None
    ensures d[0] == 0xFF && |d| >= 5 ==> Decode(d) == Some(ByeMsg(Big(d[1], d[2]), CStr(d[3..])))
    ensures d[0] !in {0, 1, 4, 0xFD, 0xFE, 0xFF} ==> Decode(d) == None
  {
  }

  // ----- the serializers -----

  method PutHeader(buffer: array<byte>, t: byte, id: Id)
    requires buffer.Length >= 3
    modifies buffer
    ensures buffer[..3] == Header(t, id)
  {
    buffer[0] := t;
    buffer[1], buffer[2] := id / 0x100, id % 0x100;
  }

  /** `memcpy` of the field followed by its terminator; returns the advanced offset. */
  method PutField(buffer: array<byte>, offset: nat, f: CString) returns (next: nat)
    requires offset + |f| + 1 <= buffer.Length
    modifies buffer
    ensures next == offset + |Field(f)|
    ensures buffer[..next] == old(buffer[..offset]) + Field(f)
  {
    for i := 0 to |f|
      invariant buffer[..offset + i] == old(buffer[..offset]) + f[..i]
    {
      buffer[offset + i] := f[i];
    }
    next := offset + |f|;
    buffer[next] := 0;
    next := next + 1;
  }

  method SerializeConfirm(id: Id) returns (buffer: array<byte>)
    ensures fresh(buffer) && buffer[..] == Encode(ConfirmMsg(id))
    ensures buffer[..] == [0, id / 256, id % 256]
  {
    buffer := new byte[3];
    PutHeader(buffer, CONFIRM, id);
  }

  method SerializeAuth(id: Id, username: CString, name: CString, secret: CString) returns (buffer: array<byte>)
    ensures fresh(buffer) && buffer[..] == Encode(AuthMsg(id, username, name, secret))
    ensures buffer[..] == [2, id / 256, id % 256] + username + [0] + name + [0] + secret + [0]
  {
    AuthBytes(id, username, name, secret);
    buffer := new byte[3 + |username| + |name| + |secret| + 3];
    PutHeader(buffer, AUTH, id);
    var offset := PutField(buffer, 3, username);
    offset := PutField(buffer, offset, name);
    offset := PutField(buffer, offset, secret);
    Assoc(Header(AUTH, id) + Field(username), Field(name), Field(secret));
    Assoc(Header(AUTH, id), Field(username), Field(name) + Field(secret));
    assert buffer[..] == buffer[..offset];
  }

  method SerializeJoin(id: Id, channel: CString, name: CString) returns (buffer: array<byte>)
    ensures fresh(buffer) && buffer[..] == Encode(JoinMsg(id, channel, name))
    ensures buffer[..] == [3, id / 256, id % 256] + channel + [0] + name + [0]
  {
    JoinBytes(id, channel, name);
    buffer := new byte[3 + |channel| + |name| + 2];
    PutHeader(buffer, JOIN, id);
    var offset := PutField(buffer, 3, channel);
    offset := PutField(buffer, offset, name);
    Assoc(Header(JOIN, id), Field(channel), Field(name));
    assert buffer[..] == buffer[..offset];
  }

  method SerializeMsg(id: Id, name: CString, content: CString) returns (buffer: array<byte>)
    ensures fresh(buffer) && buffer[..] == Encode(ChatMsg(id, name, content))
    ensures buffer[..] == [4, id / 256, id % 256] + name + [0] + content + [0]
  {
    ChatBytes(id, name, content);
    buffer := new byte[3 + |name| + |content| + 2];
    PutHeader(buffer, MSG, id);
    var offset := PutField(buffer, 3, name);
    offset := PutField(buffer, offset, content);
    Assoc(Header(MSG, id), Field(name), Field(content));
    assert buffer[..] == buffer[..offset];
  }

  method SerializeErr(id: Id, name: CString, content: CString) returns (buffer: array<byte>)
    ensures fresh(buffer) && buffer[..] == Encode(ErrMsg(id, name, content))
    ensures buffer[..] == [0xFE, id / 256, id % 256] + name + [0] + content + [0]
  {
    ErrBytes(id, name, content);
    buffer := new byte[3 + |name| + |content| + 2];
    PutHeader(buffer, ERR, id);
    var offset := PutField(buffer, 3, name);
    offset := PutField(buffer, offset, content);
    Assoc(Header(ERR, id), Field(name), Field(content));
    assert buffer[..] == buffer[..offset];
  }

  method SerializeBye(id: Id, name: CString) returns (buffer: array<byte>)
    ensures fresh(buffer) && buffer[..] == Encode(ByeMsg(id, name))
    ensures buffer[..] == [0xFF, id / 256, id % 256] + name + [0]
  {
    ByeBytes(id, name);
    buffer := new byte[3 + |name| + 1];
    PutHeader(buffer, BYE, id);
    var offset := PutField(buffer, 3, name);
    assert buffer[..] == buffer[..offset];
  }

  // ----- the deserializers -----

  /** `strlen` and `strcpy` from an offset of the receive buffer, which is terminated at `size`. */
  method GetField(buffer: array<byte>, offset: nat, size: nat) returns (f: CString)
    requires offset <= size < buffer.Length && buffer[size] == 0
    ensures f == CStr(buffer[offset..size])
  {
    var len := 0;
    while buffer[offset + len] != 0
      invariant offset + len <= size
      invariant NulFree(buffer[offset..offset + len])
      decreases size - offset - len
    {
      len := len + 1;
    }
    ghost var s := buffer[offset..size];
    assert s[..len] == buffer[offset..offset + len];
    StrlenUnique(s, len);
    f := buffer[offset..offset + len];
  }

  method DeserializeConfirm(buffer: array<byte>, size: nat) returns (m: Option<Message>)
    requires size < buffer.Length && buffer[0] == CONFIRM
    ensures m == Decode(buffer[..size])
  {
    if size < 3 {
      return None;
    }
    return Some(ConfirmMsg(FromShort(buffer[1], buffer[2])));
  }

  method DeserializePing(buffer: array<byte>, size: nat) returns (m: Option<Message>)
    requires size < buffer.Length && buffer[0] == PING
    ensures m == Decode(buffer[..size])
  {
    if size < 3 {
      return None;
    }
    return Some(PingMsg(FromShort(buffer[1], buffer[2])));
  }

  method DeserializeReply(buffer: array<byte>, size: nat) returns (m: Option<Message>)
    requires size < buffer.Length && buffer[size] == 0 && buffer[0] == REPLY
    ensures m == Decode(buffer[..size])
  {
    if size < 8 {
      return None;
    }
    var content := GetField(buffer, 6, size);
    assert buffer[..size][6..] == buffer[6..size];
    return Some(ReplyMsg(FromShort(buffer[1], buffer[2]), buffer[3], FromShort(buffer[4], buffer[5]), content));
  }

  /** The common part of `deserialize_msg` and `deserialize_err_msg`. */
  method GetTwoFields(buffer: array<byte>, size: nat) returns (name: CString, content: CString)
    requires 7 <= size < buffer.Length && buffer[size] == 0
    requires 3 + Strlen(buffer[3..size]) < size
    ensures name == Name(buffer[..size]) && buffer[..size][3..] == buffer[3..size]
    ensures content == Content(buffer[..size])
  {
    assert buffer[..size][3..] == buffer[3..size];
    var offset := 3;
    name := GetField(buffer, offset, size);
    offset := offset + |name| + 1;
    content := GetField(buffer, offset, size);
    assert buffer[..size][offset..] == buffer[offset..size];
  }

  method DeserializeMsg(buffer: array<byte>, size: nat) returns (m: Option<Message>)
    requires size < buffer.Length && buffer[size] == 0 && buffer[0] == MSG && NameTerminated(buffer[..size])
    ensures m == Decode(buffer[..size])
  {
    if size < 7 {
      return None;
    }
    assert buffer[..size][3..] == buffer[3..size];
    var name, content := GetTwoFields(buffer, size);
    return Some(ChatMsg(FromShort(buffer[1], buffer[2]), name, content));
  }

  method DeserializeErr(buffer: array<byte>, size: nat) returns (m: Option<Message>)
    requires size < buffer.Length && buffer[size] == 0 && buffer[0] == ERR && NameTerminated(buffer[..size])
    ensures m == Decode(buffer[..size])
  {
    if size < 7 {
      return None;
    }
    assert buffer[..size][3..] == buffer[3..size];
    var name, content := GetTwoFields(buffer, size);
    return Some(ErrMsg(FromShort(buffer[1], buffer[2]), name, content));
  }

  method DeserializeBye(buffer: array<byte>, size: nat) returns (m: Option<Message>)
    requires size < buffer.Length && buffer[size] == 0 && buffer[0] == BYE
    ensures m == Decode(buffer[..size])
  {
    if size < 5 {
      return None;
    }
    var name := GetField(buffer, 3, size);
    assert buffer[..size][3..] == buffer[3..size];
    return Some(ByeMsg(FromShort(buffer[1], buffer[2]), name));
  }
}
