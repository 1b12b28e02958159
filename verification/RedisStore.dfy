/** An abstract Redis node: a keyed store, the replies it gives, and how the client reads them
    (the Fetch functions and result converters of Content/RedisClient.cpp). */
module RedisStore {
  import opened Bytes

  const RC_RESULT_EOF := 5
  const RC_OBJ_NOT_EXIST := 3
  const RC_PART_SUCCESS := 1
  const RC_SUCCESS := 0
  const RC_PARAM_ERR := -1
  const RC_REPLY_ERR := -2
  const RC_RQST_ERR := -3
  const RC_NO_RESOURCE := -4

  type Key = ByteString

  /** A value of some Redis type; kind 0 is the string type. */
  datatype Value = Value(kind: Byte, body: ByteString)

  /** `ttl` is the remaining time to live in milliseconds. */
  datatype Entry = Entry(value: Value, ttl: Option<nat>)

  type Store = map<Key, Entry>

  datatype Reply =
    | StringReply(text: ByteString)
    | StatusReply(text: ByteString)
    | NilReply
    | IntegerReply(n: int)
    | ErrorReply(text: ByteString)
    | ArrayReply(elements: seq<Reply>)

  const OK: ByteString := [0x4f, 0x4b]
  const WRONGTYPE: ByteString := [0x57, 0x52]
  const BUSYKEY: ByteString := [0x42, 0x55]
  const NO_SUCH_KEY: ByteString := [0x45, 0x52]
  const BAD_ARGUMENT: ByteString := [0x42, 0x41]

  function StringEntry(s: ByteString): Entry {
    Entry(Value(0, s), None)
  }

  // The commands the modelled client operations send. Each touches only the entries it names.

  function Get(st: Store, key: Key): Reply {
    if key !in st then NilReply
    else if st[key].value.kind == 0 then StringReply(st[key].value.body)
    else ErrorReply(WRONGTYPE)
  }

  function Set(st: Store, key: Key, val: ByteString): (Store, Reply) {
    (st[key := StringEntry(val)], StatusReply(OK))
  }

  function Del(st: Store, key: Key): (Store, Reply) {
    (st - {key}, IntegerReply(if key in st then 1 else 0))
  }

  function Exists(st: Store, key: Key): Reply {
    IntegerReply(if key in st then 1 else 0)
  }

  /** DUMP's payload carries the type, so it is never empty. */
  function Dump(st: Store, key: Key): Reply {
    if key in st then StringReply([st[key].value.kind] + st[key].value.body) else NilReply
  }

  function Pttl(st: Store, key: Key): Reply {
    IntegerReply(if key !in st then -2 else match st[key].ttl case None => -1 case Some(ms) => ms)
  }

  /** RESTORE: a ttl of zero means no expiry. */
  function Restore(st: Store, key: Key, ttl: int, payload: ByteString): (Store, Reply) {
    if key in st then (st, ErrorReply(BUSYKEY))
    else if ttl < 0 || payload == [] then (st, ErrorReply(BAD_ARGUMENT))
    else
      var e := Entry(Value(payload[0], payload[1..]), if ttl == 0 then None else Some(ttl));
      (st[key := e], StatusReply(OK))
  }

  function Rename(st: Store, key: Key, newKey: Key): (Store, Reply) {
    if key !in st then (st, ErrorReply(NO_SUCH_KEY))
    else ((st - {key})[newKey := st[key]], StatusReply(OK))
  }

  function RenameNx(st: Store, key: Key, newKey: Key): (Store, Reply) {
    if key !in st then (st, ErrorReply(NO_SUCH_KEY))
    else if newKey in st then (st, IntegerReply(0))
    else ((st - {key})[newKey := st[key]], IntegerReply(1))
  }

  /** MGET never fails on a key: wrong types read as nil. */
  function Mget(st: Store, keys: seq<Key>): Reply {
    ArrayReply(seq(|keys|, i requires 0 <= i < |keys| =>
      var r := Get(st, keys[i]); if r.ErrorReply? then NilReply else r))
  }

  function MsetStore(st: Store, keys: seq<Key>, vals: seq<ByteString>): Store
    requires |keys| == |vals|
  {
    if keys == [] then st
    else
      var n := |keys| - 1;
      MsetStore(st, keys[..n], vals[..n])[keys[n] := StringEntry(vals[n])]
  }

  function Mset(st: Store, keys: seq<Key>, vals: seq<ByteString>): (Store, Reply)
    requires |keys| == |vals|
  {
    (MsetStore(st, keys, vals), StatusReply(OK))
  }

  // Reading replies.

  function FetchInteger(r: Reply): (ret: int) {
    if r.IntegerReply? then RC_SUCCESS else if r.NilReply? then RC_OBJ_NOT_EXIST else RC_REPLY_ERR
  }

  /** A nil reply is a missing object, any other that is no integer an error. */
  lemma IntegerIff(r: Reply)
    ensures FetchInteger(r) == RC_SUCCESS <==> r.IntegerReply?
    ensures FetchInteger(r) == RC_OBJ_NOT_EXIST <==> r.NilReply?
  {}

  /** `FetchString`: the return code, and the text written when it succeeds. */
  function FetchString(r: Reply): (res: (int, ByteString))
    ensures res.0 == RC_SUCCESS || res.0 == RC_REPLY_ERR
  {
    if r.StringReply? || r.StatusReply? then (RC_SUCCESS, r.text)
    else if r.NilReply? then (RC_SUCCESS, [])
    else (RC_REPLY_ERR, [])
  }

  /** The texts of the elements that can be read, in order. */
  function ReadableTexts(rs: seq<Reply>): (texts: seq<ByteString>)
    ensures |texts| <= |rs|
    ensures |texts| == |rs| <==> forall i :: 0 <= i < |rs| ==> FetchString(rs[i]).0 == RC_SUCCESS
    ensures |texts| == |rs| ==> forall i :: 0 <= i < |rs| ==> texts[i] == FetchString(rs[i]).1
  {
    if rs == [] then []
    else
      var before, last := rs[..|rs| - 1], rs[|rs| - 1];
      assert rs == before + [last];
      ReadableTexts(before) + if FetchString(last).0 == RC_SUCCESS then [FetchString(last).1] else []
  }

  /** `FetchStringArray`: clears the output vector first, and skips elements it cannot read. */
  method FetchStringArray(r: Reply, out: seq<ByteString>) returns (ret: int, out': seq<ByteString>)
    ensures r.ArrayReply? ==> && out' == ReadableTexts(r.elements)
                              && ret == if |out'| == |r.elements| then RC_SUCCESS else RC_PART_SUCCESS
    ensures r.NilReply? ==> ret == RC_SUCCESS && out' == []
    ensures !r.ArrayReply? && !r.NilReply? ==> ret == RC_REPLY_ERR && out' == out
  {
    if r.ArrayReply? {
      ret, out' := RC_SUCCESS, [];
      for i := 0 to |r.elements|
        invariant out' == ReadableTexts(r.elements[..i])
        invariant ret == if |out'| == i then RC_SUCCESS else RC_PART_SUCCESS
      {
        assert r.elements[..i + 1][..i] == r.elements[..i];
        var sub := FetchString(r.elements[i]);
        if sub.0 == RC_SUCCESS { out' := out' + [sub.1]; } else { ret := RC_PART_SUCCESS; }
      }
      assert r.elements[..|r.elements|] == r.elements;
    } else if r.NilReply? {
      ret, out' := RC_SUCCESS, [];
    } else {
      ret, out' := RC_REPLY_ERR, out;
    }
  }

  /** `StuResConv`: a success must say OK, compared as a C string. */
  function StatusConv(ret: int, r: Reply): int
    requires ret == RC_SUCCESS ==> r.StringReply? || r.StatusReply?
  {
    if ret == RC_SUCCESS && CString(r.text) != OK then RC_REPLY_ERR else ret
  }
}
