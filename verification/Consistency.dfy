/** The laws assumed of the cipher, the JSON text and the chain hash can be met together: a world that meets
    them, built on plain encodings. It stands for no cryptography; it shows that no result holds for want of
    a world. */
module Consistency {
  import opened Wrappers
  import opened Envelope
  import opened Audit

  // ---------------------------------------------------------------- encodings that can be read back

  /** Each `Put` writes a value in front of the rest, so that both can be told from the result. */
  function PutNat(n: nat, rest: Bytes): Bytes {
    if n == 0 then [0] + rest else [1] + PutNat(n - 1, rest)
  }

  function PutChars(s: string, rest: Bytes): Bytes {
    if s == [] then rest else PutNat(s[0] as int, PutChars(s[1..], rest))
  }

  function PutText(s: string, rest: Bytes): Bytes { PutNat(|s|, PutChars(s, rest)) }

  function PutEach(ss: seq<string>, rest: Bytes): Bytes {
    if ss == [] then rest else PutText(ss[0], PutEach(ss[1..], rest))
  }

  function PutTexts(ss: seq<string>, rest: Bytes): Bytes { PutNat(|ss|, PutEach(ss, rest)) }

  function PutInt(i: int, rest: Bytes): Bytes {
    if i >= 0 then [0] + PutNat(i, rest) else [1] + PutNat(-i, rest)
  }

  function PutBlob(b: Bytes, rest: Bytes): Bytes { PutNat(|b|, b + rest) }

  function PutTextOption(o: Option<string>, rest: Bytes): Bytes {
    if o.Some? then [1] + PutText(o.value, rest) else [0] + rest
  }

  function PutFloatOption(o: Option<Float64>, rest: Bytes): Bytes {
    if o.Some? then [1] + PutBlob(o.value, rest) else [0] + rest
  }

  function PutBoolOption(o: Option<bool>, rest: Bytes): Bytes {
    if o.Some? then [if o.value then 2 else 1] + rest else [0] + rest
  }

  lemma Peel(a: byte, b: byte, r: Bytes, t: Bytes)
    requires [a] + r == [b] + t
    ensures a == b && r == t
  {
    assert ([a] + r)[0] == a && ([b] + t)[0] == b;
    assert ([a] + r)[1..] == r && ([b] + t)[1..] == t;
  }

  lemma {:induction false} NatRead(m: nat, n: nat, r: Bytes, t: Bytes)
    requires PutNat(m, r) == PutNat(n, t)
    ensures m == n && r == t
    decreases m
  {
    Peel(if m == 0 then 0 else 1, if n == 0 then 0 else 1,
         if m == 0 then r else PutNat(m - 1, r), if n == 0 then t else PutNat(n - 1, t));
    if m > 0 {
      NatRead(m - 1, n - 1, r, t);
    }
  }

  lemma {:induction false} CharsRead(s: string, u: string, r: Bytes, t: Bytes)
    requires |s| == |u| && PutChars(s, r) == PutChars(u, t)
    ensures s == u && r == t
    decreases |s|
  {
    if s != [] {
      NatRead(s[0] as int, u[0] as int, PutChars(s[1..], r), PutChars(u[1..], t));
      CharsRead(s[1..], u[1..], r, t);
      assert s == [s[0]] + s[1..] && u == [u[0]] + u[1..];
    }
  }

  lemma TextRead(s: string, u: string, r: Bytes, t: Bytes)
    requires PutText(s, r) == PutText(u, t)
    ensures s == u && r == t
  {
    NatRead(|s|, |u|, PutChars(s, r), PutChars(u, t));
    CharsRead(s, u, r, t);
  }

  lemma {:induction false} EachRead(ss: seq<string>, us: seq<string>, r: Bytes, t: Bytes)
    requires |ss| == |us| && PutEach(ss, r) == PutEach(us, t)
    ensures ss == us && r == t
    decreases |ss|
  {
    if ss != [] {
      TextRead(ss[0], us[0], PutEach(ss[1..], r), PutEach(us[1..], t));
      EachRead(ss[1..], us[1..], r, t);
      assert ss == [ss[0]] + ss[1..] && us == [us[0]] + us[1..];
    }
  }

  lemma TextsRead(ss: seq<string>, us: seq<string>, r: Bytes, t: Bytes)
    requires PutTexts(ss, r) == PutTexts(us, t)
    ensures ss == us && r == t
  {
    NatRead(|ss|, |us|, PutEach(ss, r), PutEach(us, t));
    EachRead(ss, us, r, t);
  }

  lemma IntRead(i: int, j: int, r: Bytes, t: Bytes)
    requires PutInt(i, r) == PutInt(j, t)
    ensures i == j && r == t
  {
    var a, b := if i >= 0 then i else -i, if j >= 0 then j else -j;
    Peel(if i >= 0 then 0 else 1, if j >= 0 then 0 else 1, PutNat(a, r), PutNat(b, t));
    NatRead(a, b, r, t);
  }

  lemma BlobRead(a: Bytes, b: Bytes, r: Bytes, t: Bytes)
    requires PutBlob(a, r) == PutBlob(b, t)
    ensures a == b && r == t
  {
    NatRead(|a|, |b|, a + r, b + t);
    assert (a + r)[..|a|] == a && (b + t)[..|b|] == b && (a + r)[|a|..] == r && (b + t)[|b|..] == t;
  }

  lemma TextOptionRead(o: Option<string>, u: Option<string>, r: Bytes, t: Bytes)
    requires PutTextOption(o, r) == PutTextOption(u, t)
    ensures o == u && r == t
  {
    Peel(if o.Some? then 1 else 0, if u.Some? then 1 else 0,
         if o.Some? then PutText(o.value, r) else r, if u.Some? then PutText(u.value, t) else t);
    if o.Some? {
      TextRead(o.value, u.value, r, t);
    }
  }

  lemma FloatOptionRead(o: Option<Float64>, u: Option<Float64>, r: Bytes, t: Bytes)
    requires PutFloatOption(o, r) == PutFloatOption(u, t)
    ensures o == u && r == t
  {
    Peel(if o.Some? then 1 else 0, if u.Some? then 1 else 0,
         if o.Some? then PutBlob(o.value, r) else r, if u.Some? then PutBlob(u.value, t) else t);
    if o.Some? {
      BlobRead(o.value, u.value, r, t);
    }
  }

  function BoolTag(o: Option<bool>): byte {
    if o.None? then 0 else if o.value then 2 else 1
  }

  lemma BoolOptionRead(o: Option<bool>, u: Option<bool>, r: Bytes, t: Bytes)
    requires PutBoolOption(o, r) == PutBoolOption(u, t)
    ensures o == u && r == t
  {
    assert PutBoolOption(o, r) == [BoolTag(o)] + r && PutBoolOption(u, t) == [BoolTag(u)] + t;
    Peel(BoolTag(o), BoolTag(u), r, t);
  }

  // ---------------------------------------------------------------- payloads

  function PutScores(p: Payload): Bytes {
    PutFloatOption(p.similarity, PutFloatOption(p.risk, PutBoolOption(p.liveness,
      PutTextOption(p.sessionId, PutTextOption(p.requestId, [])))))
  }

  function Dump(p: Payload): Bytes {
    [0] + PutText(p.eventId, PutInt(p.timestamp, PutText(p.eventType, PutText(p.outcome,
      PutTexts(p.reasonCodes, PutScores(p))))))
  }

  function DumpCodes(codes: seq<string>): Bytes { [1] + PutTexts(codes, []) }

  lemma ScoresRead(p: Payload, q: Payload)
    requires PutScores(p) == PutScores(q)
    ensures p.similarity == q.similarity && p.risk == q.risk && p.liveness == q.liveness
    ensures p.sessionId == q.sessionId && p.requestId == q.requestId
  {
    hide PutFloatOption, PutBoolOption, PutTextOption;
    var p1, q1 := PutTextOption(p.requestId, []), PutTextOption(q.requestId, []);
    var p2, q2 := PutTextOption(p.sessionId, p1), PutTextOption(q.sessionId, q1);
    var p3, q3 := PutBoolOption(p.liveness, p2), PutBoolOption(q.liveness, q2);
    FloatOptionRead(p.similarity, q.similarity, PutFloatOption(p.risk, p3), PutFloatOption(q.risk, q3));
    FloatOptionRead(p.risk, q.risk, p3, q3);
    BoolOptionRead(p.liveness, q.liveness, p2, q2);
    TextOptionRead(p.sessionId, q.sessionId, p1, q1);
    TextOptionRead(p.requestId, q.requestId, [], []);
  }

  lemma DumpRead(p: Payload, q: Payload)
    requires Dump(p) == Dump(q)
    ensures p == q
  {
    hide PutText, PutInt, PutTexts, PutScores;
    var p1, q1 := PutTexts(p.reasonCodes, PutScores(p)), PutTexts(q.reasonCodes, PutScores(q));
    var p2, q2 := PutText(p.outcome, p1), PutText(q.outcome, q1);
    var p3, q3 := PutText(p.eventType, p2), PutText(q.eventType, q2);
    var p4, q4 := PutInt(p.timestamp, p3), PutInt(q.timestamp, q3);
    Peel(0, 0, PutText(p.eventId, p4), PutText(q.eventId, q4));
    TextRead(p.eventId, q.eventId, p4, q4);
    IntRead(p.timestamp, q.timestamp, p3, q3);
    TextRead(p.eventType, q.eventType, p2, q2);
    TextRead(p.outcome, q.outcome, p1, q1);
    TextsRead(p.reasonCodes, q.reasonCodes, PutScores(p), PutScores(q));
    ScoresRead(p, q);
  }

  lemma DumpCodesRead(codes: seq<string>, other: seq<string>)
    requires DumpCodes(codes) == DumpCodes(other)
    ensures codes == other
  {
    hide PutTexts;
    Peel(1, 1, PutTexts(codes, []), PutTexts(other, []));
    TextsRead(codes, other, [], []);
  }

  lemma DumpsAreApart(p: Payload, codes: seq<string>)
    ensures Dump(p) != DumpCodes(codes)
  {
    assert Dump(p)[0] != DumpCodes(codes)[0];
  }

  ghost function Load(b: Bytes): Option<Value> {
    if exists p :: Dump(p) == b then var p :| Dump(p) == b; Some(Fields(AsDict(p)))
    else if exists codes :: DumpCodes(codes) == b then var codes :| DumpCodes(codes) == b; Some(Items(Texts(codes)))
    else None
  }

  lemma LoadReads(p: Payload, codes: seq<string>)
    ensures Load(Dump(p)) == Some(Fields(AsDict(p)))
    ensures Load(DumpCodes(codes)) == Some(Items(Texts(codes)))
  {
    hide Dump, DumpCodes, AsDict;
    forall q | Dump(q) == Dump(p)
      ensures q == p
    {
      DumpRead(q, p);
    }
    forall other | DumpCodes(other) == DumpCodes(codes)
      ensures other == codes
    {
      DumpCodesRead(other, codes);
    }
    forall q
      ensures Dump(q) != DumpCodes(codes)
    {
      DumpsAreApart(q, codes);
    }
  }

  // ---------------------------------------------------------------- the chain

  function Escape(h: string): string {
    if h == [] then "0" else ['1', h[0]] + Escape(h[1..])
  }

  function AsChars(data: Bytes): (s: string)
    ensures |s| == |data| && forall i :: 0 <= i < |data| ==> s[i] == data[i] as int as char
  {
    seq(|data|, i requires 0 <= i < |data| => data[i] as int as char)
  }

  function Link(h: string, data: Bytes): string { "x" + Escape(h) + AsChars(data) }

  lemma {:induction false} EscapeRead(h: string, g: string, r: string, t: string)
    requires Escape(h) + r == Escape(g) + t
    ensures h == g && r == t
    decreases |h|
  {
    assert (Escape(h) + r)[0] == if h == [] then '0' else '1';
    assert (Escape(g) + t)[0] == if g == [] then '0' else '1';
    if h == [] {
      assert (Escape(h) + r)[1..] == r && (Escape(g) + t)[1..] == t;
    } else {
      assert Escape(h) + r == ['1', h[0]] + (Escape(h[1..]) + r);
      assert Escape(g) + t == ['1', g[0]] + (Escape(g[1..]) + t);
      assert (Escape(h) + r)[1] == h[0] && (Escape(g) + t)[1] == g[0];
      assert (Escape(h) + r)[2..] == Escape(h[1..]) + r && (Escape(g) + t)[2..] == Escape(g[1..]) + t;
      EscapeRead(h[1..], g[1..], r, t);
      assert h == [h[0]] + h[1..] && g == [g[0]] + g[1..];
    }
  }

  lemma CharsReadBack(data: Bytes, other: Bytes)
    requires AsChars(data) == AsChars(other)
    ensures data == other
  {
    forall i | 0 <= i < |data|
      ensures data[i] == other[i]
    {
      assert AsChars(data)[i] == AsChars(other)[i];
    }
  }

  lemma LinkRead(h: string, g: string, data: Bytes, other: Bytes)
    requires Link(h, data) == Link(g, other)
    ensures h == g && data == other
  {
    hide Escape, AsChars;
    var s, t := Escape(h) + AsChars(data), Escape(g) + AsChars(other);
    assert Link(h, data) == "x" + s && Link(g, other) == "x" + t;
    assert ("x" + s)[1..] == s && ("x" + t)[1..] == t;
    EscapeRead(h, g, AsChars(data), AsChars(other));
    CharsReadBack(data, other);
  }

  lemma LinkIsNotGenesis(h: string, data: Bytes)
    ensures Link(h, data) != GENESIS
  {
    assert GENESIS[0] == '0';
    hide Escape, AsChars;
    assert Link(h, data)[0] == 'x';
  }

  // ---------------------------------------------------------------- the cipher

  function Seal(key: Bytes, plain: Bytes, aad: string): Bytes { PutBlob(key, PutText(aad, PutBlob(plain, []))) }

  function Derive(master: Bytes, info: string): Bytes { PutBlob(master, PutText(info, [])) }

  ghost function Open(key: Bytes, ciphertext: Bytes, aad: string): Option<Bytes> {
    if exists plain :: ciphertext == Seal(key, plain, aad) then
      var plain :| ciphertext == Seal(key, plain, aad); Some(plain)
    else None
  }

  lemma SealRead(key: Bytes, key': Bytes, plain: Bytes, plain': Bytes, aad: string, aad': string)
    requires Seal(key, plain, aad) == Seal(key', plain', aad')
    ensures key == key' && plain == plain' && aad == aad'
  {
    hide PutBlob, PutText;
    BlobRead(key, key', PutText(aad, PutBlob(plain, [])), PutText(aad', PutBlob(plain', [])));
    TextRead(aad, aad', PutBlob(plain, []), PutBlob(plain', []));
    BlobRead(plain, plain', [], []);
  }

  lemma DeriveRead(master: Bytes, master': Bytes, info: string, info': string)
    requires Derive(master, info) == Derive(master', info')
    ensures master == master' && info == info'
  {
    hide PutBlob, PutText;
    BlobRead(master, master', PutText(info, []), PutText(info', []));
    TextRead(info, info', [], []);
  }

  /** Some cipher is lawful and binding. */
  lemma SomeCipher() returns (c: Cipher)
    ensures Lawful(c) && Binding(c)
  {
    c := Cipher((master, info, _) => Derive(master, info), (key, _, plain, aad) => Seal(key, plain, aad),
                (key, _, ciphertext, aad) => Open(key, ciphertext, aad));
    hide Seal, Derive;
    forall key, key', plain, plain', aad, aad' | Seal(key, plain, aad) == Seal(key', plain', aad')
      ensures key == key' && plain == plain' && aad == aad'
    {
      SealRead(key, key', plain, plain', aad, aad');
    }
    forall master, master', info, info' | Derive(master, info) == Derive(master', info')
      ensures master == master' && info == info'
    {
      DeriveRead(master, master', info, info');
    }
  }

  /** Some world meets every law assumed of the audit log at once. */
  lemma SomeWorld() returns (w: World)
    ensures Sane(w) && StrongChain(w) && Binding(w.cipher)
  {
    var c := SomeCipher();
    w := World((v: Value) => if v.Text? then v.s else "", (v: Value) => if v.Whole? then Some(v.i) else None,
               (v: Value) => if v.Real? then Some(v.r) else None,
               (v: Value) => if v.Truth? then v.b else v.Whole? && v.i != 0,
               p => Dump(p), codes => DumpCodes(codes), b => Load(b), (h, data) => Link(h, data), c);
    hide Lawful, Binding, Load, Dump, Link, AsDict;
    forall p: Payload
      ensures w.loads(w.dumps(p)) == Some(Fields(AsDict(p)))
    {
      LoadReads(p, []);
    }
    forall codes: seq<string>
      ensures w.loads(w.dumpsCodes(codes)) == Some(Items(Texts(codes)))
    {
      LoadReads(Payload("", 0, "", "", [], None, None, None, None, None), codes);
    }
    forall h, h', data, data'
      ensures w.chain(h, data) == w.chain(h', data') ==> h == h' && data == data'
      ensures w.chain(h, data) != GENESIS
    {
      if Link(h, data) == Link(h', data') {
        LinkRead(h, h', data, data');
      }
      LinkIsNotGenesis(h, data);
    }
  }
}
