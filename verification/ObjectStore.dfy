/** The volume as a store of byte strings, one per live chain. */
module ObjectStore {
  import opened Bytes
  import opened Flatten
  import opened Volume
  import opened Chains
  import opened Contents
  import opened ClusterOps
  import opened FileIo
  import opened Catalog

  ghost function Objects(data: seq<seq<byte>>, own: map<int, Chain>): Held {
    map h | h in own && InData(data, own[h]) :: Body(data, own[h])
  }

  lemma ObjectsAre(vol: Vol)
    requires Sound(vol)
    ensures Objects(vol.data, vol.own).Keys == vol.own.Keys
    ensures forall h :: h in vol.own ==> 2 <= h < |vol.fat| && InData(vol.data, vol.own[h]) && |vol.own[h]| > 0
    ensures forall h :: h in vol.own ==> Objects(vol.data, vol.own)[h] == Body(vol.data, vol.own[h])
    ensures 0 !in vol.own
  {
    hide Volume.Refines, Body;
    forall h | h in vol.own ensures 2 <= h < |vol.fat| && InData(vol.data, vol.own[h]) && |vol.own[h]| > 0 {
      assert IsChain(vol.fat, vol.own[h]) && vol.own[h][0] == h;
    }
  }

  /** One chain grew or was rewritten: every other object is as before. */
  lemma ObjectsGrown(data0: seq<seq<byte>>, own0: map<int, Chain>, vol: Vol, h: int)
    requires Sound(vol) && h in vol.own && vol.own == own0[h := vol.own[h]]
    requires SameOutside(data0, vol.data, vol.own[h])
    ensures InData(vol.data, vol.own[h])
    ensures Objects(vol.data, vol.own) == Objects(data0, own0)[h := Body(vol.data, vol.own[h])]
  {
    hide Volume.Refines, Body, Owned, SameOutside, InData;
    ObjectsAre(vol);
    forall k | k in own0 && k != h
      ensures k in vol.own && vol.own[k] == own0[k] && InData(data0, own0[k])
      ensures Body(vol.data, own0[k]) == Body(data0, own0[k])
    {
      assert k in vol.own && vol.own[k] == own0[k];
      OtherUntouched(data0, vol, k, h);
    }
  }

  lemma OtherUntouched(data0: seq<seq<byte>>, vol: Vol, k: int, h: int)
    requires Sound(vol) && h in vol.own && k in vol.own && k != h && SameOutside(data0, vol.data, vol.own[h])
    ensures InData(vol.data, vol.own[k]) && InData(data0, vol.own[k])
    ensures Body(vol.data, vol.own[k]) == Body(data0, vol.own[k])
  {
    hide Volume.Refines, Body, Owned;
    ObjectsAre(vol);
    var s, t := vol.own[k], vol.own[h];
    forall i | 0 <= i < |s| ensures s[i] !in t {
      forall j | 0 <= j < |t| ensures t[j] != s[i] { OwnedDisjoint(vol.fat, vol.own, vol.owner, k, h, i, j); }
    }
    BodyFrame(vol.data, data0, s);
  }

  lemma BodySingle(data: seq<seq<byte>>, c: int)
    requires 2 <= c < |data|
    ensures InData(data, [c]) && Body(data, [c]) == data[c]
  {
    var none: Chain, one: Chain := [], [c];
    assert InData(data, none) && Pick(data, none) == [];
    BodySnoc(data, none, c);
    assert none + [c] == one;
    assert Body(data, one) == [] + data[c] == data[c];
  }

  lemma ObjectsNew(data: seq<seq<byte>>, own: map<int, Chain>, c: int)
    requires 2 <= c < |data|
    ensures Objects(data, own[c := [c]]) == Objects(data, own)[c := data[c]]
  {
    hide Body;
    BodySingle(data, c);
    var l, r := Objects(data, own[c := [c]]), Objects(data, own)[c := data[c]];
    assert l.Keys == r.Keys;
    assert forall h :: h in l ==> l[h] == r[h];
  }

  lemma ObjectsDrop(data: seq<seq<byte>>, own: map<int, Chain>, h: int)
    ensures Objects(data, own - {h}) == Objects(data, own) - {h}
  {
  }

  lemma BodyPrefix(data: seq<seq<byte>>, s: Chain, t: Chain)
    requires InData(data, t) && s <= t
    ensures InData(data, s) && Body(data, s) <= Body(data, t)
  {
    assert Pick(data, t) == Pick(data, s) + Pick(data, t)[|s|..];
    FlatAppend(Pick(data, s), Pick(data, t)[|s|..]);
  }
}
