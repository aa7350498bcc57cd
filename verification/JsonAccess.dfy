/** Reading fields out of JSON objects. */
module JsonAccess {
  import opened Prelude
  import opened JsonNumber
  import opened Json

  function Field(v: Json, key: string): (r: Option<Json>)
    ensures r.Some? ==> r.value < v
  {
    if v.Obj? then Lookup(v.members, key) else None
  }

  function Lookup(ms: seq<Member>, key: string): (r: Option<Json>)
    ensures r.Some? ==> exists i | 0 <= i < |ms| :: ms[i].key == key && ms[i].value == r.value
    ensures r.None? ==> key !in Keys(ms)
  {
    if ms == [] then None
    else if ms[0].key == key then Some(ms[0].value)
    else Lookup(ms[1..], key)
  }

  function AsString(v: Option<Json>): Option<string> {
    if v.Some? && v.value.Str? then Some(v.value.s) else None
  }

  function AsInt(v: Option<Json>): Option<int> {
    if v.Some? && v.value.Num? && v.value.num.Safe? then Some(v.value.num.n) else None
  }

  lemma LookupAt(ms: seq<Member>, i: nat)
    requires UniqueKeys(ms) && i < |ms|
    ensures Lookup(ms, ms[i].key) == Some(ms[i].value)
  {
  }

  lemma FieldAt(ms: seq<Member>, i: nat, key: string)
    requires UniqueKeys(ms) && i < |ms| && ms[i].key == key
    ensures Field(Obj(ms), key) == Some(ms[i].value)
  {
    LookupAt(ms, i);
  }

  function AsStrings(items: seq<Json>): Option<seq<string>> {
    if items == [] then
      Some([])
    else
      match (items[0], AsStrings(items[1..]))
      case (Str(s), Some(rest)) => Some([s] + rest)
      case _ => None
  }

  function Texts(ss: seq<string>): (vs: seq<Json>)
    ensures |vs| == |ss| && forall i | 0 <= i < |ss| :: vs[i] == Str(ss[i])
  {
    if ss == [] then [] else [Str(ss[0])] + Texts(ss[1..])
  }

  lemma {:induction false} TextsRead(ss: seq<string>)
    ensures AsStrings(Texts(ss)) == Some(ss)
  {
    if ss != [] {
      TextsRead(ss[1..]);
      assert Texts(ss)[1..] == Texts(ss[1..]);
      assert [ss[0]] + ss[1..] == ss;
    }
  }

  // ---------- Setting a field ----------

  /** The members with `m` in place of the one of its key, or at the end. */
  function Put(ms: seq<Member>, m: Member): seq<Member> {
    if ms == [] then [m] else if ms[0].key == m.key then [m] + ms[1..] else [ms[0]] + Put(ms[1..], m)
  }

  lemma {:induction false} LookupInPut(ms: seq<Member>, m: Member, key: string)
    ensures Lookup(Put(ms, m), key) == if key == m.key then Some(m.value) else Lookup(ms, key)
  {
    if ms != [] && ms[0].key != m.key {
      LookupInPut(ms[1..], m, key);
    }
  }

  lemma KeysOfCons(m: Member, ms: seq<Member>)
    ensures Keys([m] + ms) == {m.key} + Keys(ms)
  {
  }

  lemma {:induction false} KeysOfPut(ms: seq<Member>, m: Member)
    ensures Keys(Put(ms, m)) == Keys(ms) + {m.key}
  {
    if ms == [] {
      assert Keys([m]) == {m.key};
    } else {
      assert ms == [ms[0]] + ms[1..];
      KeysOfCons(ms[0], ms[1..]);
      KeysOfCons(m, ms[1..]);
      KeysOfPut(ms[1..], m);
      KeysOfCons(ms[0], Put(ms[1..], m));
    }
  }

  lemma ConsIsWF(m: Member, ms: seq<Member>)
    requires WF(Obj(ms)) && WF(m.value) && m.key !in Keys(ms)
    ensures WF(Obj([m] + ms))
  {
    var all := [m] + ms;
    assert forall j | 0 <= j < |ms| :: ms[j] in ms;
    assert forall j | 0 < j < |all| :: all[j] == ms[j - 1];
  }

  lemma TailIsWF(ms: seq<Member>)
    requires ms != [] && WF(Obj(ms))
    ensures WF(Obj(ms[1..])) && WF(ms[0].value) && ms[0].key !in Keys(ms[1..])
  {
    UniqueTail(ms);
  }

  lemma NoKeys()
    ensures Keys([]) == {}
  {
  }

  lemma {:induction false} PutIsWF(ms: seq<Member>, m: Member)
    requires WF(Obj(ms)) && WF(m.value)
    ensures WF(Obj(Put(ms, m)))
  {
    hide WF, Keys;
    if ms == [] {
      NoKeys();
      ConsIsWF(m, ms);
      assert [m] + ms == [m];
    } else {
      TailIsWF(ms);
      if ms[0].key == m.key {
        ConsIsWF(m, ms[1..]);
      } else {
        PutIsWF(ms[1..], m);
        KeysOfPut(ms[1..], m);
        ConsIsWF(ms[0], Put(ms[1..], m));
      }
    }
  }
}
