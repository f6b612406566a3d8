/** The length-framed digest input of the upload verification backfill, and the ids made from it. */
module Framing {
  import opened Basics

  newtype byte = x: int | 0 <= x < 256

  const LIMIT: int := 0x1_0000_0000

  // ---------------------------------------------------------------- frames

  /** len.to_bytes(4, "big") */
  function Prefix(n: int): seq<byte>
    requires 0 <= n < LIMIT
  {
    [(n / 0x100_0000) as byte, (n / 0x1_0000 % 0x100) as byte, (n / 0x100 % 0x100) as byte, (n % 0x100) as byte]
  }

  function Length(b: seq<byte>): (n: int)
    requires |b| == 4
    ensures 0 <= n < LIMIT
  {
    b[0] as int * 0x100_0000 + b[1] as int * 0x1_0000 + b[2] as int * 0x100 + b[3] as int
  }

  lemma LengthOfPrefix(n: int)
    requires 0 <= n < LIMIT
    ensures |Prefix(n)| == 4 && Length(Prefix(n)) == n
  {
    var a, b, c := n / 0x100, n / 0x1_0000, n / 0x100_0000;
    assert b == a / 0x100 && c == b / 0x100;
  }

  /** The four bytes are those of the length, the most significant first. */
  lemma PrefixIsBigEndian(n: int)
    requires 0 <= n < LIMIT
    ensures |Prefix(n)| == 4
    ensures n == Prefix(n)[0] as int * 16_777_216 + Prefix(n)[1] as int * 65_536 + Prefix(n)[2] as int * 256
               + Prefix(n)[3] as int
  {
    LengthOfPrefix(n);
  }

  /** Every value is short enough for a 4-byte length; otherwise to_bytes raises. */
  predicate Frameable(values: seq<seq<byte>>) {
    forall i | 0 <= i < |values| :: |values[i]| < LIMIT
  }

  /** `b"".join(len(value).to_bytes(4, "big") + value for value in values)` */
  function Framed(values: seq<seq<byte>>): seq<byte>
    requires Frameable(values)
  {
    if values == [] then [] else Framed(values[..|values| - 1]) + Frame(values[|values| - 1])
  }

  function Frame(value: seq<byte>): seq<byte>
    requires |value| < LIMIT
  {
    Prefix(|value|) + value
  }

  method Join(values: seq<seq<byte>>) returns (r: Result<seq<byte>>)
    ensures r.Success? <==> Frameable(values)
    ensures r.Success? ==> r.value == Framed(values)
  {
    var framed := [];
    var i := 0;
    ghost var done := [];
    while i < |values|
      invariant 0 <= i == |done| <= |values|
      invariant forall k | 0 <= k < i :: done[k] == values[k]
      invariant Frameable(done) && framed == Framed(done)
    {
      if |values[i]| >= LIMIT {
        return Failure;
      }
      FrontOfSnoc(done, values[i]);
      framed := framed + Frame(values[i]);
      done := done + [values[i]];
      i := i + 1;
    }
    assert done == values;
    return Success(framed);
  }

  // ---------------------------------------------------------------- the decoder

  /** Splits the bytes into frames; None when they do not end at the end of a frame. */
  function Unframed(b: seq<byte>): Option<seq<seq<byte>>>
    decreases |b|
  {
    if b == [] then Some([])
    else if |b| < 4 || |b| - 4 < Length(b[..4]) then None
    else
      var n := Length(b[..4]);
      var rest := Unframed(b[4 + n..]);
      if rest.None? then None else Some([b[4..4 + n]] + rest.value)
  }

  lemma FirstFrame(value: seq<byte>, rest: seq<byte>)
    requires |value| < LIMIT && Unframed(rest).Some?
    ensures Unframed(Frame(value) + rest) == Some([value] + Unframed(rest).value)
  {
    var b := Frame(value) + rest;
    LengthOfPrefix(|value|);
    assert b[..4] == Prefix(|value|);
    assert b[4..4 + |value|] == value && b[4 + |value|..] == rest;
  }

  lemma FramedSnoc(front: seq<seq<byte>>, last: seq<byte>)
    requires Frameable(front) && |last| < LIMIT
    ensures Frameable(front + [last]) && Framed(front + [last]) == Framed(front) + Frame(last)
  {
    FrontOfSnoc(front, last);
  }

  lemma {:induction false} UnframedAppend(values: seq<seq<byte>>, rest: seq<byte>, tail: seq<seq<byte>>)
    requires Frameable(values) && Unframed(rest) == Some(tail)
    ensures Unframed(Framed(values) + rest) == Some(values + tail)
    decreases |values|
  {
    hide Unframed, Frame;
    if values == [] {
      assert Framed(values) + rest == rest && values + tail == tail;
    } else {
      var front, last := Unsnoc(values);
      assert |last| < LIMIT && Frameable(front) by {
        assert values[|values| - 1] == last;
        assert forall i | 0 <= i < |front| :: values[i] == front[i];
      }
      hide Framed;
      FirstFrame(last, rest);
      UnframedAppend(front, Frame(last) + rest, [last] + tail);
      FramedSnoc(front, last);
      Assoc(Framed(front), Frame(last), rest);
      Assoc(front, [last], tail);
    }
  }

  /** Decoding gives back what was framed, however many values there are. */
  lemma RoundTrip(values: seq<seq<byte>>)
    requires Frameable(values)
    ensures Unframed(Framed(values)) == Some(values)
  {
    assert Unframed([]) == Some([]);
    UnframedAppend(values, [], []);
    hide Unframed, Framed;
    assert Framed(values) + [] == Framed(values) && values + [] == values;
  }

  lemma FramedIsInjective(a: seq<seq<byte>>, b: seq<seq<byte>>)
    requires Frameable(a) && Frameable(b) && Framed(a) == Framed(b)
    ensures a == b
  {
    RoundTrip(a);
    RoundTrip(b);
  }

  // ---------------------------------------------------------------- the backfill

  type Text = string

  /** str.encode() and the hexadecimal SHA-256. */
  datatype Env = Env(encode: Text -> seq<byte>, sha256: seq<byte> -> Digest)

  /** A lower-case hexadecimal SHA-256. */
  type Digest = s: string | IsHex(s, 64) witness seq(64, i => '0')

  /** Different texts have different bytes. */
  ghost predicate Decodable(e: Env) {
    forall s, t :: e.encode(s) == e.encode(t) ==> s == t
  }

  /** The hash tells these two inputs apart, if they differ. */
  ghost predicate NoCollision(e: Env, a: seq<byte>, b: seq<byte>) {
    e.sha256(a) == e.sha256(b) ==> a == b
  }

  datatype Session = Session(status: string, operation: Option<string>)

  datatype SessionKey = SessionKey(workspace: Text, upload: Text)

  type Sessions = map<SessionKey, Session>

  predicate Verified(status: string) { status in {"verifying", "completed", "failed"} }

  function Fields(e: Env, k: SessionKey, s: Session): seq<seq<byte>> {
    [e.encode(k.workspace), e.encode(k.upload), e.encode(s.status)]
  }

  function OperationId(e: Env, k: SessionKey, s: Session): string
    requires Frameable(Fields(e, k, s))
  {
    "prep_" + e.sha256(Framed(Fields(e, k, s)))
  }

  /** The id is that of the hash over Workspace, upload and status, in this order, each behind its length. */
  lemma OperationIdIsHash(e: Env, k: SessionKey, s: Session)
    requires Frameable(Fields(e, k, s))
    ensures var w, u, v := e.encode(k.workspace), e.encode(k.upload), e.encode(s.status);
      && |w| < 0x1_0000_0000 && |u| < 0x1_0000_0000 && |v| < 0x1_0000_0000
      && OperationId(e, k, s)
         == "prep_" + e.sha256(Prefix(|w|) + w + Prefix(|u|) + u + Prefix(|v|) + v)
  {
    var w, u, v := e.encode(k.workspace), e.encode(k.upload), e.encode(s.status);
    assert Fields(e, k, s)[0] == w && Fields(e, k, s)[1] == u && Fields(e, k, s)[2] == v;
    hide Prefix;
    FramedSnoc([], w);
    FramedSnoc([w], u);
    FramedSnoc([w, u], v);
    assert [] + [w] == [w] && [w] + [u] == [w, u] && [w, u] + [v] == Fields(e, k, s);
    assert Framed(Fields(e, k, s)) == ([] + Frame(w)) + Frame(u) + Frame(v);
    assert [] + Frame(w) == Prefix(|w|) + w;
    Assoc(Prefix(|w|) + w, Prefix(|u|), u);
    Assoc(Prefix(|w|) + w + Prefix(|u|) + u, Prefix(|v|), v);
  }

  /** CHECK ck_upload_sessions_verification_owner */
  predicate OwnerOk(s: Session) {
    && (Verified(s.status) <==> s.operation.Some?)
    && (s.operation.Some? ==> IsOpaqueId(s.operation.value) && |s.operation.value| <= 80)
  }

  /** The id of every verified session meets its CHECK. */
  lemma OperationIdIsOpaque(e: Env, k: SessionKey, s: Session)
    requires Frameable(Fields(e, k, s))
    ensures IsOpaqueId(OperationId(e, k, s)) && |OperationId(e, k, s)| == 69
  {
    var id, digest: string := OperationId(e, k, s), e.sha256(Framed(Fields(e, k, s)));
    assert "prep_" == ['p', 'r', 'e', 'p', '_'];
    forall i | 1 <= i < |id|
      ensures Lower(id[i]) || 'A' <= id[i] <= 'Z' || Digit(id[i]) || id[i] in "_-"
    {
      if i >= 5 {
        assert id[i] == digest[i - 5] && LowerHex(digest[i - 5]);
      }
    }
  }

  /** Where the hash does not collide on the two inputs, sessions have one operation id exactly when
      they agree in Workspace, upload and status. */
  lemma SameOperationIdIff(e: Env, j: SessionKey, s: Session, k: SessionKey, t: Session)
    requires Decodable(e) && Frameable(Fields(e, j, s)) && Frameable(Fields(e, k, t))
    requires NoCollision(e, Framed(Fields(e, j, s)), Framed(Fields(e, k, t)))
    ensures OperationId(e, j, s) == OperationId(e, k, t) <==> j == k && s.status == t.status
  {
    if OperationId(e, j, s) == OperationId(e, k, t) {
      OperationIdsDiffer(e, j, s, k, t);
    }
  }

  lemma OperationIdsDiffer(e: Env, j: SessionKey, s: Session, k: SessionKey, t: Session)
    requires Decodable(e) && Frameable(Fields(e, j, s)) && Frameable(Fields(e, k, t))
    requires NoCollision(e, Framed(Fields(e, j, s)), Framed(Fields(e, k, t)))
    requires OperationId(e, j, s) == OperationId(e, k, t)
    ensures j == k && s.status == t.status
  {
    var a, b: string := e.sha256(Framed(Fields(e, j, s))), e.sha256(Framed(Fields(e, k, t)));
    assert a == OperationId(e, j, s)[5..] && b == OperationId(e, k, t)[5..];
    assert e.sha256(Framed(Fields(e, j, s))) == e.sha256(Framed(Fields(e, k, t)));
    FramedIsInjective(Fields(e, j, s), Fields(e, k, t));
    assert Fields(e, j, s)[0] == Fields(e, k, t)[0] && Fields(e, j, s)[1] == Fields(e, k, t)[1];
    assert Fields(e, j, s)[2] == Fields(e, k, t)[2];
  }

  /** The sessions that the query selects. */
  function Selected(rows: Sessions): set<SessionKey> {
    set k | k in rows && Verified(rows[k].status) && rows[k].operation.None?
  }

  ghost predicate AllFrameable(e: Env, rows: Sessions) {
    forall k | k in Selected(rows) :: Frameable(Fields(e, k, rows[k]))
  }

  /** The hash does not collide on the inputs that this table gives it. */
  ghost predicate CollisionFree(e: Env, rows: Sessions)
    requires AllFrameable(e, rows)
  {
    forall j, k | j in Selected(rows) && k in Selected(rows) ::
      NoCollision(e, Framed(Fields(e, j, rows[j])), Framed(Fields(e, k, rows[k])))
  }

  /** The sessions `done` have their ids, all others are as they were. */
  ghost predicate Identified(e: Env, before: Sessions, done: set<SessionKey>, rows: Sessions) {
    && rows.Keys == before.Keys && done <= Selected(before)
    && (forall k | k in done ::
          && Frameable(Fields(e, k, before[k]))
          && rows[k] == Session(before[k].status, Some(OperationId(e, k, before[k]))))
    && (forall k | k in before && k !in done :: rows[k] == before[k])
  }

  lemma IdentifiedStep(e: Env, before: Sessions, done: set<SessionKey>, rows: Sessions, k: SessionKey)
    requires Identified(e, before, done, rows) && k in Selected(before) && Frameable(Fields(e, k, before[k]))
    ensures Identified(e, before, done + {k},
                       rows[k := before[k].(operation := Some(OperationId(e, k, before[k])))])
  {
  }

  lemma IdentifiedStart(e: Env, before: Sessions)
    ensures Identified(e, before, {}, before)
  {
  }

  lemma IdentifiedEnd(e: Env, before: Sessions, rows: Sessions)
    requires Identified(e, before, Selected(before), rows)
    ensures AllFrameable(e, before) && rows.Keys == before.Keys
  {
  }

  lemma NotFrameable(e: Env, before: Sessions, k: SessionKey)
    requires k in Selected(before) && !Frameable(Fields(e, k, before[k]))
    ensures !AllFrameable(e, before)
  {
  }

  lemma IdentifiedOwners(e: Env, before: Sessions, rows: Sessions)
    requires Identified(e, before, Selected(before), rows)
    requires forall k | k in before :: before[k].operation.None?
    ensures forall k | k in rows :: OwnerOk(rows[k])
  {
    forall k | k in rows ensures OwnerOk(rows[k]) {
      if k in Selected(before) {
        OperationIdIsOpaque(e, k, before[k]);
      }
    }
  }

  /** No two sessions get one id, as long as the hash does not collide on the inputs of this table. */
  lemma IdentifiedApart(e: Env, before: Sessions, rows: Sessions, j: SessionKey, k: SessionKey)
    requires AllFrameable(e, before) && Identified(e, before, Selected(before), rows)
    requires Decodable(e) && CollisionFree(e, before)
    requires j in Selected(before) && k in Selected(before) && j != k
    ensures rows[j].operation != rows[k].operation
  {
    SameOperationIdIff(e, j, before[j], k, before[k]);
  }

  class UploadSessions {
    var rows: Sessions

    /** `_backfill_upload_verification_operations`, on a table whose new column is still empty. */
    method Backfill(e: Env) returns (ok: bool)
      requires forall k | k in rows :: rows[k].operation.None?
      modifies this
      ensures ok <==> AllFrameable(e, old(rows))
      ensures !ok ==> rows == old(rows)
      ensures ok ==> Identified(e, old(rows), Selected(old(rows)), rows)
      ensures forall k :: k in Selected(old(rows)) <==>
        k in old(rows) && old(rows)[k].status in {"verifying", "completed", "failed"}
      ensures ok ==> forall k | k in rows :: OwnerOk(rows[k])
      ensures ok && Decodable(e) && CollisionFree(e, old(rows)) ==>
        forall j, k | j in Selected(old(rows)) && k in Selected(old(rows)) && j != k ::
          rows[j].operation != rows[k].operation
    {
      hide Framed, OwnerOk, Decodable, CollisionFree, Identified, AllFrameable, Frameable;
      var before := rows;
      var todo := Selected(rows);
      ghost var done := {};
      IdentifiedStart(e, before);
      while todo != {}
        invariant todo <= Selected(before) == done + todo
        invariant Identified(e, before, done, rows)
        decreases |todo|
      {
        var k :| k in todo;
        var framed := Join(Fields(e, k, before[k]));
        if framed.Failure? {
          rows := before;
          NotFrameable(e, before, k);
          return false;
        }
        IdentifiedStep(e, before, done, rows, k);
        rows := rows[k := before[k].(operation := Some("prep_" + e.sha256(framed.value)))];
        todo, done := todo - {k}, done + {k};
      }
      IdentifiedEnd(e, before, rows);
      IdentifiedOwners(e, before, rows);
      if Decodable(e) && CollisionFree(e, before) {
        forall j, k | j in Selected(before) && k in Selected(before) && j != k
          ensures rows[j].operation != rows[k].operation
        {
          IdentifiedApart(e, before, rows, j, k);
        }
      }
      return true;
    }
  }
}
