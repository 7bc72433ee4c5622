// What a client sees of a command: for every request that means it, the keyspace
// after it and the value its reply bytes decode to (src/command/mod.rs).
module ClientView {
  import opened Wrappers
  import opened ByteStrings
  import opened Resp
  import opened Commands
  import opened CommandGrammar
  import opened Keyspace
  import opened Dispatch
  import opened PubSubRegistry

  const WRONG_TYPE: Bytes := "WRONGTYPE Operation against " + "a key holding the wrong kind of value"
  const NOT_INTEGER: Bytes := "ERR value is not an integer or out of range"
  const NOT_HASH_INTEGER: Bytes := "ERR hash value is not an integer"
  const OVERFLOW: Bytes := "ERR increment or decrement would overflow"
  const NO_SUCH_KEY: Bytes := "ERR no such key"
  const OUT_OF_RANGE: Bytes := "ERR index out of range"
  const NOT_A_NUMBER: Bytes := "ERR resulting score is not a number (NaN)"

  /** Clock ticks in a second. */
  const TICKS: nat := 1_000_000_000

  ghost predicate IsRequest(tokens: seq<Bytes>, cmd: Command, fp: FloatText) {
    tokens != [] && Means(cmd, VerbOf(Upper(tokens[0])), tokens[1..], fp)
  }

  /** A server between two requests: its live keyspace and what else it uses. */
  datatype View = View(m: Store, registry: Registry, env: Env, fp: FloatText)
  {
    /** The request leaves this keyspace, and its reply is one frame of this value. */
    ghost predicate Does(tokens: seq<Bytes>, after: Store, reply: Reply) {
      var h := Handle(tokens, m, registry, env, fp);
      h.store == after && Decode(h.reply) == Some((reply, []))
    }

    /** However the command is requested. */
    ghost predicate Runs(cmd: Command, after: Store, reply: Reply) {
      forall tokens :: IsRequest(tokens, cmd, fp) ==> Does(tokens, after, reply)
    }

    ghost predicate Answers(cmd: Command, reply: Reply) {
      Runs(cmd, m, reply)
    }

    ghost predicate Refuses(cmd: Command, text: Bytes) {
      Runs(cmd, m, ErrorReply(text))
    }

    function Deadline(key: Bytes): Option<int> {
      if key in m then m[key].expiresAt else None
    }
  }

  /** A list of strings as a reply. */
  function Listed(items: seq<Bytes>): Reply {
    ArrayReply(seq(|items|, i requires 0 <= i < |items| => BulkReply(items[i])))
  }

  lemma BulksAreListed(items: seq<Bytes>)
    ensures ArrayReply(Bulks(items)) == Listed(items)
  {
    assert Bulks(items) == Listed(items).items;
  }

  lemma Performs(v: View, cmd: Command)
    ensures var (after, reply) := Apply(cmd, v.m, Audience(cmd, v.registry), v.env, v.fp);
            v.Runs(cmd, after, reply)
  {
    hide Parse, Apply, Encode, Decode, VerbOf, Upper, Means;
    var (after, reply) := Apply(cmd, v.m, Audience(cmd, v.registry), v.env, v.fp);
    CommandsSound(cmd, v.m, Audience(cmd, v.registry), v.env, v.fp);
    DecodeEncode(reply, []);
    assert Encode(reply) + [] == Encode(reply);
    forall tokens | IsRequest(tokens, cmd, v.fp) ensures v.Does(tokens, after, reply) {
      ParseIff(tokens, cmd, v.fp);
    }
  }

  // The texts of the errors, as they stand on the wire.

  lemma WrongTypeText()
    ensures Failure(StoreError.WrongType.Text()) == ErrorReply(WRONG_TYPE)
  {
    hide Sanitize, OneLine;
    FirstHalf();
    SecondHalf();
    OneLineJoin("WRONGTYPE Operation against ", "a key holding the wrong kind of value");
  }

  lemma FirstHalf()
    ensures OneLine("WRONGTYPE Operation against ")
  {
  }

  lemma SecondHalf()
    ensures OneLine("a key holding the wrong kind of value")
  {
  }

  lemma OneLineJoin(a: Bytes, b: Bytes)
    requires OneLine(a) && OneLine(b)
    ensures OneLine(a + b)
  {
  }

  lemma NotIntegerText()
    ensures Failure(StoreError.NotInteger.Text()) == ErrorReply(NOT_INTEGER)
  {
    hide Sanitize;
    assert OneLine(NOT_INTEGER);
  }

  lemma NotHashIntegerText()
    ensures Failure(StoreError.NotHashInteger.Text()) == ErrorReply(NOT_HASH_INTEGER)
  {
    hide Sanitize;
    assert OneLine(NOT_HASH_INTEGER);
  }

  lemma OverflowText()
    ensures Failure(StoreError.Overflow.Text()) == ErrorReply(OVERFLOW)
  {
    hide Sanitize;
    assert OneLine(OVERFLOW);
  }

  lemma NoSuchKeyText()
    ensures Failure(StoreError.NoSuchKey.Text()) == ErrorReply(NO_SUCH_KEY)
  {
    hide Sanitize;
    assert OneLine(NO_SUCH_KEY);
  }

  lemma IndexOutOfRangeText()
    ensures Failure(StoreError.IndexOutOfRange.Text()) == ErrorReply(OUT_OF_RANGE)
  {
    hide Sanitize;
    assert OneLine(OUT_OF_RANGE);
  }

  lemma ScoreNaNText()
    ensures Failure(StoreError.ScoreNaN.Text()) == ErrorReply(NOT_A_NUMBER)
  {
    hide Sanitize;
    assert OneLine(NOT_A_NUMBER);
  }
}
