/** The receiving side in place. */
module ExtKeys {
  import opened Wrappers
  import opened Bytes
  import opened Otp
  import opened EncKeysSpec
  import opened ExtKeysSpec

  datatype Denial = TooMany | Refusal(why: ExtKeysSpec.Refusal)

  class Receiver {
    var dec: map<Text, seq<TKey>>
    var inner: map<Text, Entry>
    var perOrigin: map<Text, nat>

    ghost function View(): Store
      reads this
    {
      Store(dec, inner, perOrigin)
    }

    constructor ()
      ensures View() == Run([])
    {
      dec, inner, perOrigin := map[], map[], map[];
    }

    /** Takes the first pad with that id. */
    method TakeById(p: Text, id: Text) returns (pad: Option<TKey>)
      modifies this`dec
      ensures var q := Dec(old(View()), p); var i := Position(q, id);
              if i < |q| then pad == Some(q[i]) && dec == old(dec)[p := q[..i] + q[i + 1..]]
              else pad == None && dec == old(dec)
    {
      var q := if p in dec then dec[p] else [];
      var i := 0;
      while i < |q| && q[i].id != id
        invariant 0 <= i <= |q| && forall j :: 0 <= j < i ==> q[j].id != id
      {
        i := i + 1;
      }
      assert i == Position(q, id);
      if i == |q| { return None; }
      dec := dec[p := q[..i] + q[i + 1..]];
      return Some(q[i]);
    }

    method InsertFromPeer(p: Text, id: Text, bytes: seq<byte>) returns (out: Outcome)
      modifies this`inner, this`perOrigin
      ensures (View(), out) == Inserted(old(View()), p, id, bytes)
    {
      var count := if p in perOrigin then perOrigin[p] else 0;
      if count >= MAX_PENDING_PER_ORIGIN { return Refused(OriginFull); }
      if id in inner { return Dropped; }
      inner := inner[id := Entry(bytes, Some(p))];
      perOrigin := perOrigin[p := count + 1];
      return Acked;
    }

    method ReceiveOne(p: Text, k: WireKey) returns (out: Outcome)
      modifies this
      ensures (View(), out) == ReceiveKey(old(View()), p, k)
    {
      if k.padId.None? { return Refused(MissingPadId); }
      var pad := TakeById(p, k.padId.value);
      if pad.None? { return Refused(UnknownPad); }
      var plain := Wrap(pad.value.bytes, k.value);
      if plain.Err? { return Refused(PadTooShort); }
      if !Matches(k, plain.value) { return Dropped; }
      out := InsertFromPeer(p, k.id, plain.value);
    }

    /** The whole envelope; what came before a refusal stays. */
    method HandleIncoming(p: Text, targets: nat, keys: seq<WireKey>) returns (r: Result<seq<Text>, Denial>)
      modifies this
      ensures targets > MAX_SAE_ID_COUNT || |keys| > MAX_KEY_PER_REQUEST ==> r == Err(TooMany) && View() == old(View())
      ensures targets <= MAX_SAE_ID_COUNT && |keys| <= MAX_KEY_PER_REQUEST ==>
                var (s, bad, acks) := Receive(old(View()), p, keys);
                View() == s && r == if bad.Some? then Err(Refusal(bad.value)) else Ok(acks)
    {
      if targets > MAX_SAE_ID_COUNT || |keys| > MAX_KEY_PER_REQUEST { return Err(TooMany); }
      var acks := [];
      for i := 0 to |keys|
        invariant Receive(old(View()), p, keys[..i]) == (View(), None, acks)
      {
        assert keys[..i + 1][..i] == keys[..i];
        var out := ReceiveOne(p, keys[i]);
        if out.Refused? {
          ReceiveStays(old(View()), p, keys, i + 1);
          return Err(Refusal(out.why));
        }
        if out.Acked? { acks := acks + [keys[i].id]; }
      }
      assert keys[..|keys|] == keys;
      return Ok(acks);
    }
  }

  lemma {:induction false} ReceiveStays(s: Store, p: Text, keys: seq<WireKey>, i: nat)
    requires i <= |keys| && Receive(s, p, keys[..i]).1.Some?
    ensures Receive(s, p, keys) == Receive(s, p, keys[..i])
  {
    if i < |keys| {
      assert keys[..|keys| - 1][..i] == keys[..i];
      ReceiveStays(s, p, keys[..|keys| - 1], i);
    } else {
      assert keys[..i] == keys;
    }
  }
}
