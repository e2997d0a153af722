/** One client connection: the buffer loop with key resolution on the first message
    that any candidate key decrypts. */
module ConnectionLoop {
  import opened Options
  import opened Bytes
  import opened StreamFramer

  type Key = string

  /** Decryption of a payload under a key; None when the padding is wrong. */
  type Decryptor = (Key, seq<byte>) -> Option<seq<byte>>

  const MIN_DECRYPTED: nat := 8

  /** `registered` is this connection's entry in the shared key map. */
  datatype Keys = Keys(candidates: seq<Key>, resolved: Option<Key>, registered: Option<Key>)

  datatype Action =
    | SendPong
    | Handle(key: Key, request: seq<byte>)
    | RefuseUndecryptable
    | DropShort(key: Key)

  function FirstKey(candidates: seq<Key>, dec: Decryptor, payload: seq<byte>): (k: Option<Key>)
    ensures k == None <==> forall c :: c in candidates ==> dec(c, payload) == None
    ensures k.Some? ==> exists i :: 0 <= i < |candidates| && candidates[i] == k.value
                          && dec(k.value, payload).Some?
                          && forall j :: 0 <= j < i ==> dec(candidates[j], payload) == None
  {
    if candidates == [] then None
    else if dec(candidates[0], payload).Some? then
      assert candidates[0] == Some(candidates[0]).value;
      Some(candidates[0])
    else
      var k := FirstKey(candidates[1..], dec, payload);
      assert k.Some? ==> forall i :: 0 <= i < |candidates| - 1 ==> candidates[1..][i] == candidates[i + 1];
      k
  }

  function Act(ks: Keys, dec: Decryptor, e: Event): (Keys, Action) {
    match e
    case Pong => (ks, SendPong)
    case Payload(p) =>
      var key := if ks.resolved.Some? then
                   if dec(ks.resolved.value, p).Some? then ks.resolved else None
                 else FirstKey(ks.candidates, dec, p);
      if key == None then (ks, RefuseUndecryptable)
      else
        var ks' := if ks.resolved.Some? then ks else Keys([], key, key);
        var request := dec(key.value, p).value;
        (ks', if |request| < MIN_DECRYPTED then DropShort(key.value) else Handle(key.value, request))
  }

  /** What happens to one payload: the resolved key stays, or the first candidate that
      decrypts it becomes the key; the request goes to the handler if the key decrypts it
      to at least eight bytes. */
  lemma PayloadIsAnswered(ks: Keys, dec: Decryptor, p: seq<byte>)
    requires KeysOk(ks)
    ensures var (ks', a) := Act(ks, dec, Payload(p));
            && (ks.resolved.Some? ==> ks' == ks)
            && (ks'.resolved == None ==> ks' == ks && forall c :: c in ks.candidates ==> dec(c, p) == None)
            && (ks.resolved == None && ks'.resolved.Some? ==>
                  && ks' == Keys([], ks'.resolved, ks'.resolved) && dec(ks'.resolved.value, p).Some?
                  && exists i :: 0 <= i < |ks.candidates| && ks.candidates[i] == ks'.resolved.value
                       && forall j :: 0 <= j < i ==> dec(ks.candidates[j], p) == None)
            && a == match ks'.resolved
                    case None => RefuseUndecryptable
                    case Some(k) =>
                      match dec(k, p)
                      case None => RefuseUndecryptable
                      case Some(request) => if |request| < 8 then DropShort(k) else Handle(k, request)
  {
  }

  function ActAll(ks: Keys, dec: Decryptor, es: seq<Event>): (Keys, seq<Action>)
    decreases |es|
  {
    if es == [] then (ks, [])
    else
      var (ks1, a) := Act(ks, dec, es[0]);
      var (ks2, rest) := ActAll(ks1, dec, es[1..]);
      (ks2, [a] + rest)
  }

  // ------------------------------------------------------------ key resolution

  /** A key is resolved exactly when the candidates are spent, and then the shared map
      holds that key for the connection. */
  predicate KeysOk(ks: Keys) {
    (ks.resolved.Some? <==> ks.candidates == []) && ks.registered == ks.resolved
  }

  lemma {:induction false} KeysStayOk(ks: Keys, dec: Decryptor, es: seq<Event>)
    requires KeysOk(ks)
    ensures var ks' := ActAll(ks, dec, es).0;
            KeysOk(ks') && (ks.resolved.Some? ==> ks' == ks)
    decreases |es|
  {
    if es != [] {
      KeysStayOk(Act(ks, dec, es[0]).0, dec, es[1..]);
    }
  }

  predicate Undecryptable(candidates: seq<Key>, dec: Decryptor, e: Event) {
    e.Payload? ==> FirstKey(candidates, dec, e.bytes) == None
  }

  /** Event `i` is the first that some candidate decrypts, and `k` the first such
      candidate. */
  ghost predicate ResolvedAt(candidates: seq<Key>, dec: Decryptor, es: seq<Event>, i: nat, k: Key)
    requires i < |es|
  {
    && es[i].Payload? && FirstKey(candidates, dec, es[i].bytes) == Some(k)
    && forall j :: 0 <= j < i ==> Undecryptable(candidates, dec, es[j])
  }

  /** The resolved key is the first candidate that decrypts the first decryptable
      payload; without such a payload the candidates are untouched. */
  lemma {:induction false} ResolvedKeyIsFirst(candidates: seq<Key>, dec: Decryptor, es: seq<Event>)
    requires candidates != []
    ensures var ks := ActAll(Keys(candidates, None, None), dec, es).0;
            && (ks.resolved.Some? ==>
                  exists i :: 0 <= i < |es| && ResolvedAt(candidates, dec, es, i, ks.resolved.value))
            && (ks.resolved == None ==> ks == Keys(candidates, None, None)
                                        && forall e :: e in es ==> Undecryptable(candidates, dec, e))
    decreases |es|
  {
    var ks0 := Keys(candidates, None, None);
    if es != [] {
      var ks1 := Act(ks0, dec, es[0]).0;
      if ks1.resolved.Some? {
        KeysStayOk(ks1, dec, es[1..]);
        assert ResolvedAt(candidates, dec, es, 0, ks1.resolved.value);
      } else {
        ResolvedKeyIsFirst(candidates, dec, es[1..]);
        var ks := ActAll(ks0, dec, es).0;
        if ks.resolved.Some? {
          var i :| 0 <= i < |es[1..]| && ResolvedAt(candidates, dec, es[1..], i, ks.resolved.value);
          assert ResolvedAt(candidates, dec, es, i + 1, ks.resolved.value) by {
            forall j | 0 <= j < i + 1 ensures Undecryptable(candidates, dec, es[j]) {
              assert j > 0 ==> es[j] == es[1..][j - 1];
            }
          }
        }
      }
    }
  }

  /** Every request of a connection is decrypted under one and the same key. */
  lemma {:induction false} OneKeyPerConnection(ks: Keys, dec: Decryptor, es: seq<Event>)
    requires KeysOk(ks)
    ensures var (ks', actions) := ActAll(ks, dec, es);
            forall a :: a in actions && a.Handle? ==> ks'.resolved == Some(a.key) && ks'.registered == Some(a.key)
    decreases |es|
  {
    if es != [] {
      var (ks1, a) := Act(ks, dec, es[0]);
      KeysStayOk(ks1, dec, es[1..]);
      OneKeyPerConnection(ks1, dec, es[1..]);
    }
  }

  lemma {:induction false} ActAllAppend(ks: Keys, dec: Decryptor, es: seq<Event>, fs: seq<Event>)
    ensures var (ks1, a) := ActAll(ks, dec, es);
            var (ks2, b) := ActAll(ks1, dec, fs);
            ActAll(ks, dec, es + fs) == (ks2, a + b)
    decreases |es|
  {
    if es == [] {
      assert es + fs == fs;
      assert [] + ActAll(ks, dec, fs).1 == ActAll(ks, dec, fs).1;
    } else {
      assert (es + fs)[1..] == es[1..] + fs && (es + fs)[0] == es[0];
      var (ks1, a) := Act(ks, dec, es[0]);
      ActAllAppend(ks1, dec, es[1..], fs);
      var (ks2, rest) := ActAll(ks1, dec, es[1..]);
      assert [a] + (rest + ActAll(ks2, dec, fs).1) == ([a] + rest) + ActAll(ks2, dec, fs).1;
    }
  }

  // ------------------------------------------------------------ the imperative loop

  datatype Take = NeedMore | GaveUp | Skipped | Took(event: Event)

  datatype Round = GoOn | AllDone(ok: bool) | ChannelClosed

  class Connection {
    const connId: int
    const dec: Decryptor
    var buf: seq<byte>
    var candidates: seq<Key>
    var resolved: Option<Key>
    /** The key map shared by all connections. */
    var encryptionKeys: map<int, Key>
    /** How many sends found the channel closed. */
    ghost var unsent: nat
    /** Messages given to the reply channel or to the request handler, in order. */
    var actions: seq<Action>

    function View(): Keys
      reads this
    {
      Keys(candidates, resolved,
           if connId in encryptionKeys then Some(encryptionKeys[connId]) else None)
    }

    ghost predicate Valid()
      reads this
    {
      KeysOk(View())
    }

    constructor (connId: int, dec: Decryptor, candidates: seq<Key>, buf: seq<byte>, keys: map<int, Key>)
      requires candidates != [] && connId !in keys
      ensures Valid() && View() == Keys(candidates, None, None)
      ensures this.connId == connId && this.dec == dec && this.buf == buf && actions == []
    {
      this.connId, this.dec, this.candidates, this.buf := connId, dec, candidates, buf;
      resolved, encryptionKeys, actions, unsent := None, keys, [], 0;
    }

    /** Sends a pong, or runs a request and sends its reply; either send fails when the
        channel is closed.  Refusing a message never fails. */
    method Perform(a: Action) returns (sent: bool)
      modifies this`actions, this`unsent
      ensures unsent == old(unsent) + if sent then 0 else 1
      ensures actions == if sent || a.Handle? then old(actions) + [a] else old(actions)
      ensures a.RefuseUndecryptable? || a.DropShort? ==> sent
    {
      sent := true;
      if a.SendPong? || a.Handle? {
        sent := *;
      }
      unsent := unsent + if sent then 0 else 1;
      if sent || a.Handle? {
        actions := actions + [a];
      }
    }

    /** Tries the resolved key, or every candidate in order; the first that decrypts
        becomes the key of the connection. */
    method Decrypt(payload: seq<byte>) returns (a: Action)
      requires Valid()
      modifies this`candidates, this`resolved, this`encryptionKeys
      ensures Valid() && (View(), a) == Act(old(View()), dec, Payload(payload))
      ensures encryptionKeys - {connId} == old(encryptionKeys) - {connId}
    {
      var key: Option<Key>;
      if resolved.Some? {
        key := if dec(resolved.value, payload).Some? then resolved else None;
      } else {
        key := None;
        var i := 0;
        while i < |candidates| && key == None
          invariant 0 <= i <= |candidates|
          invariant key == None ==> FirstKey(candidates, dec, payload) == FirstKey(candidates[i..], dec, payload)
          invariant key.Some? ==> FirstKey(candidates, dec, payload) == key && dec(key.value, payload).Some?
        {
          if dec(candidates[i], payload).Some? {
            key := Some(candidates[i]);
          }
          i := i + 1;
        }
        if key.Some? {
          resolved := key;
          encryptionKeys := encryptionKeys[connId := key.value];
          candidates := [];
        }
      }
      if key == None {
        return RefuseUndecryptable;
      }
      var request := dec(key.value, payload).value;
      return if |request| < MIN_DECRYPTED then DropShort(key.value) else Handle(key.value, request);
    }

    /** Answers one event: a pong, a request handed over, or a refusal. */
    method Respond(e: Event) returns (sent: bool)
      requires Valid()
      modifies this`candidates, this`resolved, this`encryptionKeys, this`actions, this`unsent
      ensures unsent == old(unsent) + if sent then 0 else 1
      ensures Valid() && encryptionKeys - {connId} == old(encryptionKeys) - {connId}
      ensures View() == Act(old(View()), dec, e).0
      ensures actions == old(actions) + [Act(old(View()), dec, e).1] || (!sent && actions == old(actions))
      ensures sent ==> actions == old(actions) + [Act(old(View()), dec, e).1]
    {
      var a;
      match e {
        case Pong => a := SendPong;
        case Payload(p) => a := Decrypt(p);
      }
      sent := Perform(a);
    }

    /** The key state and the action log after acting on the events `done`. */
    ghost predicate Acted(ks: Keys, log: seq<Action>, done: seq<Event>)
      reads this
    {
      View() == ActAll(ks, dec, done).0 && actions == log + ActAll(ks, dec, done).1
    }

    /** Answers the event between those `done` and those that `p` still takes. */
    method RespondNext(e: Event, ghost ks: Keys, ghost log: seq<Action>, ghost done: seq<Event>, ghost p: Pass)
      returns (sent: bool)
      requires Valid() && Acted(ks, log, done)
      modifies this`candidates, this`resolved, this`encryptionKeys, this`actions, this`unsent
      ensures unsent == old(unsent) + if sent then 0 else 1
      ensures Valid() && encryptionKeys - {connId} == old(encryptionKeys) - {connId}
      ensures sent ==> Acted(ks, log, done + [e]) && After(done, Emit(e, p)) == After(done + [e], p)
      ensures !sent ==> actions <= log + ActAll(ks, dec, After(done, Emit(e, p)).events).1
      ensures old(actions) <= actions
    {
      AfterOne(done, e, p);
      Done(ks, dec, done, e, done + ([e] + p.events), [e] + p.events);
      sent := Respond(e);
    }

    /** One pass over the buffer.  Unless a channel was closed under it, it performs
        exactly the actions of the reference parser and leaves exactly its residue. */
    method ProcessMessageBuffer() returns (ok: bool, closed: bool)
      requires Valid()
      modifies this`buf, this`candidates, this`resolved, this`encryptionKeys, this`actions, this`unsent
      ensures Valid() && (closed <==> unsent != old(unsent))
      ensures encryptionKeys - {connId} == old(encryptionKeys) - {connId}
      ensures !closed ==> ok == Drain(old(buf), 0).ok && buf == Drain(old(buf), 0).rest
      ensures !closed ==> Acted(old(View()), old(actions), Drain(old(buf), 0).events)
      ensures ok ==> !closed && Residue(buf)
      ensures closed ==> old(actions) <= actions
                         && actions <= old(actions) + ActAll(old(View()), dec, Drain(old(buf), 0).events).1
    {
      var errors: nat := 0;
      ghost var done: seq<Event> := [];
      ghost var whole := Drain(buf, 0);
      DrainLeavesResidue(buf, 0);
      assert actions + [] == actions;
      while true
        invariant Valid() && encryptionKeys - {connId} == old(encryptionKeys) - {connId}
        invariant unsent == old(unsent) && old(actions) <= actions
        invariant InProgress(whole, old(View()), old(actions), done, errors)
        decreases |buf|
      {
        var next;
        next, errors, done := TakeAndRespond(errors, whole, old(View()), old(actions), done);
        if !next.GoOn? {
          return next == AllDone(true), next.ChannelClosed?;
        }
      }
    }

    /** The events `done` are answered, and the rest of the pass is what the buffer holds. */
    ghost predicate InProgress(whole: Pass, ks: Keys, log: seq<Action>, done: seq<Event>, errors: nat)
      reads this
    {
      whole == After(done, Drain(buf, errors)) && errors < MAX_CONSECUTIVE_ERRORS && Acted(ks, log, done)
    }

    /** One round of the loop. */
    method TakeAndRespond(errors: nat, ghost whole: Pass, ghost ks: Keys, ghost log: seq<Action>,
                          ghost done: seq<Event>)
      returns (next: Round, errors': nat, ghost done': seq<Event>)
      requires Valid() && InProgress(whole, ks, log, done, errors)
      modifies this`buf, this`candidates, this`resolved, this`encryptionKeys, this`actions, this`unsent
      ensures Valid() && encryptionKeys - {connId} == old(encryptionKeys) - {connId} && old(actions) <= actions
      ensures next.ChannelClosed? <==> unsent != old(unsent)
      ensures next.GoOn? ==> InProgress(whole, ks, log, done', errors') && |buf| < |old(buf)|
      ensures next.AllDone? ==> next.ok == whole.ok && buf == whole.rest && Acted(ks, log, whole.events)
      ensures next.ChannelClosed? ==> actions <= log + ActAll(ks, dec, whole.events).1
    {
      var take;
      take, errors' := TakeEvent(errors);
      done' := done;
      match take
      case NeedMore =>
        assert done + [] == done;
        next := AllDone(true);
      case GaveUp =>
        assert done + [] == done;
        next := AllDone(false);
      case Skipped =>
        next := GoOn;
      case Took(e) =>
        var sent := RespondNext(e, ks, log, done, Drain(buf, errors'));
        done' := done + [e];
        next := if sent then GoOn else ChannelClosed;
    }

    /** Cuts the next event off the buffer, or one byte when the header makes no sense. */
    method TakeEvent(errors: nat) returns (take: Take, errors': nat)
      requires errors < MAX_CONSECUTIVE_ERRORS
      modifies this`buf
      ensures take.GaveUp? || errors' < MAX_CONSECUTIVE_ERRORS
      ensures Drain(old(buf), errors) ==
                match take
                case NeedMore => Pass([], buf, errors', true)
                case GaveUp => Pass([], buf, errors', false)
                case Skipped => Drain(buf, errors')
                case Took(e) => Emit(e, Drain(buf, errors'))
      ensures take.Skipped? || take.Took? ==> |buf| < |old(buf)|
    {
      if |buf| < 4 {
        return NeedMore, errors;
      }
      if IsPlainPing(buf) {
        buf := buf[4..];
        return Took(Pong), errors;
      }
      var total := Le32(buf);
      if !InRange(total) {
        buf := buf[1..];
        if errors + 1 >= MAX_CONSECUTIVE_ERRORS {
          buf := [];
          return GaveUp, errors + 1;
        }
        return Skipped, errors + 1;
      }
      if |buf| < total {
        return NeedMore, errors;
      }
      take, errors' := Took(Payload(buf[4..total])), 0;
      buf := buf[total..];
    }

    /** Dropping the guard at the end of the connection forgets its key. */
    method Close()
      modifies this`encryptionKeys
      ensures encryptionKeys == old(encryptionKeys) - {connId}
    {
      encryptionKeys := encryptionKeys - {connId};
    }
  }

  function After(done: seq<Event>, p: Pass): Pass {
    p.(events := done + p.events)
  }

  lemma AfterOne(done: seq<Event>, e: Event, p: Pass)
    ensures After(done, Emit(e, p)) == After(done + [e], p)
  {
  }

  /** Acting on one more event extends the actions by one, and stays a prefix of the
      actions of the whole pass. */
  lemma Done(ks: Keys, dec: Decryptor, done: seq<Event>, e: Event, whole: seq<Event>, todo: seq<Event>)
    requires todo != [] && todo[0] == e && whole == done + todo
    ensures var (k, a) := Act(ActAll(ks, dec, done).0, dec, e);
            && ActAll(ks, dec, done + [e]) == (k, ActAll(ks, dec, done).1 + [a])
            && ActAll(ks, dec, done).1 + [a] <= ActAll(ks, dec, whole).1
  {
    var ks1 := ActAll(ks, dec, done).0;
    var (k, a) := Act(ks1, dec, e);
    ActAllAppend(ks, dec, done, [e]);
    assert [e][0] == e && [e][1..] == [];
    assert ActAll(k, dec, []) == (k, []);
    assert [a] + [] == [a];
    assert whole == (done + [e]) + todo[1..];
    ActAllAppend(ks, dec, done + [e], todo[1..]);
  }

  /** The answer to an item, under the key that the connection has in the end. */
  function AnswerTo(it: Item, key: Option<Key>, dec: Decryptor): Action {
    match it
    case Ping(_) => SendPong
    case Frame(p) =>
      if key == None || dec(key.value, p) == None then RefuseUndecryptable
      else if |dec(key.value, p).value| < MIN_DECRYPTED then DropShort(key.value)
      else Handle(key.value, dec(key.value, p).value)
  }

  /** The key of a connection is one of its candidates. */
  lemma {:induction false} KeyIsCandidate(ks: Keys, dec: Decryptor, es: seq<Event>)
    requires KeysOk(ks)
    ensures var key := ActAll(ks, dec, es).0.resolved;
            if ks.resolved.Some? then key == ks.resolved else key.Some? ==> key.value in ks.candidates
    decreases |es|
  {
    if es != [] {
      KeyIsCandidate(Act(ks, dec, es[0]).0, dec, es[1..]);
    }
  }

  lemma {:induction false} EventsAnswered(items: seq<Item>, ks: Keys, dec: Decryptor)
    requires KeysOk(ks)
    ensures var (ks', a) := ActAll(ks, dec, EventsOf(items));
            |a| == |items| && forall i :: 0 <= i < |items| ==> a[i] == AnswerTo(items[i], ks'.resolved, dec)
    decreases |items|
  {
    if items != [] {
      var es := EventsOf(items);
      assert es[1..] == EventsOf(items[1..]) && es[0] == EventOf(items[0]);
      var (ks1, first) := Act(ks, dec, es[0]);
      KeysStayOk(ks, dec, [es[0]]);
      EventsAnswered(items[1..], ks1, dec);
      KeyIsCandidate(ks, dec, es);
      KeyIsCandidate(ks1, dec, es[1..]);
    }
  }

  /** End to end: encoded items, cut into any reads, are answered one by one -- a ping by a
      pong, a frame by handing over its decryption under the one key of the connection, or
      by a refusal if it has no decryption under that key. */
  lemma ItemsAreAnswered(items: seq<Item>, chunks: seq<seq<byte>>, ks: Keys, dec: Decryptor)
    requires KeysOk(ks) && forall it :: it in items ==> ValidItem(it)
    requires Concat(chunks) == EncodeAll(items)
    ensures var (ks', a) := ActAll(ks, dec, Feed([], chunks).events);
            |a| == |items| && forall i :: 0 <= i < |items| ==> a[i] == AnswerTo(items[i], ks'.resolved, dec)
  {
    ValidStreamRoundTrip(items, chunks);
    EventsAnswered(items, ks, dec);
  }
}
