/** A submitted form as the request handlers see it (`request.form`, a
    multi-valued dictionary): the (key, value) pairs in submission order. */
module Form {
  import opened Wrappers

  type FormData = seq<(string, string)>

  /** Some pair of the form has this key. */
  ghost predicate Submitted(form: FormData, key: string)
  {
    exists i :: 0 <= i < |form| && form[i].0 == key
  }

  /** `request.form[key]`: the first value submitted under `key`, or
      `None` where Flask would refuse the request. */
  function Get(form: FormData, key: string): (r: Option<string>)
    ensures r.Some? <==> Submitted(form, key)
    ensures r.Some? ==> exists i :: 0 <= i < |form| && form[i] == (key, r.value)
                                    && forall j :: 0 <= j < i ==> form[j].0 != key
    decreases |form|
  {
    if form == [] then None
    else if form[0].0 == key then
      assert form[0] == (key, form[0].1);
      Some(form[0].1)
    else
      var r := Get(form[1..], key);
      assert forall i :: 0 <= i < |form| - 1 ==> form[1..][i] == form[i + 1];
      assert r.Some? ==> exists i :: 0 < i < |form| && form[i] == (key, r.value)
                                     && forall j :: 0 <= j < i ==> form[j].0 != key;
      r
  }

  /** The first pair with a key determines `Get` for that key. */
  lemma GetFirst(form: FormData, i: nat, key: string)
    requires i < |form| && form[i].0 == key
    requires forall j :: 0 <= j < i ==> form[j].0 != key
    ensures Get(form, key) == Some(form[i].1)
  {
  }

  /** No element occurs twice. */
  predicate Distinct(ks: seq<string>)
  {
    forall i, j :: 0 <= i < j < |ks| ==> ks[i] != ks[j]
  }

  /** A sequence is distinct exactly when its head is not in its tail and the tail is distinct. */
  lemma DistinctCons(x: string, ks: seq<string>)
    ensures Distinct([x] + ks) <==> Distinct(ks) && x !in ks
  {
    var r := [x] + ks;
    assert r[1..] == ks;
    if Distinct(ks) && x !in ks {
      forall i, j | 0 <= i < j < |r| ensures r[i] != r[j] {
        assert r[j] == ks[j - 1];
        if i > 0 { assert r[i] == ks[i - 1]; }
      }
    }
    if Distinct(r) {
      forall i, j | 0 <= i < j < |ks| ensures ks[i] != ks[j] {
        assert ks[i] == r[i + 1] && ks[j] == r[j + 1];
      }
      forall j | 0 <= j < |ks| ensures ks[j] != x {
        assert ks[j] == r[j + 1] && r[0] == x;
        assert 0 < j + 1 < |r|;
        assert r[0] != r[j + 1];
      }
    }
  }

  /** `ks` without any occurrence of `k`. */
  function Without(ks: seq<string>, k: string): (r: seq<string>)
    ensures forall x :: x in r <==> x in ks && x != k
    ensures Distinct(ks) ==> Distinct(r)
    decreases |ks|
  {
    if ks == [] then []
    else if ks[0] == k then Without(ks[1..], k)
    else
      var r := Without(ks[1..], k);
      assert ks == [ks[0]] + ks[1..];
      DistinctCons(ks[0], ks[1..]);
      DistinctCons(ks[0], r);
      [ks[0]] + r
  }

  /** `for key in request.form`: every submitted key once, in the order of
      its first occurrence. */
  function Keys(form: FormData): (ks: seq<string>)
    ensures forall k :: k in ks <==> Submitted(form, k)
    ensures Distinct(ks)
    decreases |form|
  {
    if form == [] then []
    else
      var rest := Keys(form[1..]);
      assert forall k :: Submitted(form, k) <==> k == form[0].0 || Submitted(form[1..], k) by {
        forall k ensures Submitted(form, k) <==> k == form[0].0 || Submitted(form[1..], k) {
          if Submitted(form[1..], k) {
            var i :| 0 <= i < |form| - 1 && form[1..][i].0 == k;
            assert form[i + 1].0 == k;
          }
          if Submitted(form, k) && k != form[0].0 {
            var i :| 0 <= i < |form| && form[i].0 == k;
            assert form[1..][i - 1].0 == k;
          }
        }
      }
      var others := Without(rest, form[0].0);
      DistinctCons(form[0].0, others);
      [form[0].0] + others
  }

  /** The index of the first pair with this key (`|form|` when there is none). */
  function FirstAt(form: FormData, key: string): nat
    decreases |form|
  {
    if form == [] then 0
    else if form[0].0 == key then 0
    else 1 + FirstAt(form[1..], key)
  }

  /** `FirstAt` is the position of the first pair submitted under the key. */
  lemma {:induction false} FirstAtIsFirst(form: FormData, key: string)
    ensures FirstAt(form, key) <= |form|
    ensures FirstAt(form, key) < |form| <==> Submitted(form, key)
    ensures FirstAt(form, key) < |form| ==> form[FirstAt(form, key)].0 == key
    ensures forall j :: 0 <= j < FirstAt(form, key) ==> form[j].0 != key
    decreases |form|
  {
    if form != [] && form[0].0 != key {
      var tail := form[1..];
      FirstAtIsFirst(tail, key);
      assert forall j :: 0 <= j < |tail| ==> tail[j] == form[j + 1];
      if Submitted(form, key) {
        var i :| 0 <= i < |form| && form[i].0 == key;
        assert tail[i - 1].0 == key;
      }
      if Submitted(tail, key) {
        var i :| 0 <= i < |tail| && tail[i].0 == key;
        assert form[i + 1].0 == key;
      }
    }
  }

  /** The keys are listed in the order of their first submitted pair. */
  ghost predicate InFirstOrder(form: FormData, ks: seq<string>)
  {
    forall i, j :: 0 <= i < j < |ks| ==> FirstAt(form, ks[i]) < FirstAt(form, ks[j])
  }

  /** Dropping a key keeps the others in their order. */
  lemma {:induction false} WithoutInFirstOrder(form: FormData, ks: seq<string>, k: string)
    requires InFirstOrder(form, ks)
    ensures InFirstOrder(form, Without(ks, k))
    decreases |ks|
  {
    if ks != [] {
      var tail := ks[1..];
      assert InFirstOrder(form, tail) by {
        forall i, j | 0 <= i < j < |tail| ensures FirstAt(form, tail[i]) < FirstAt(form, tail[j]) {
          assert tail[i] == ks[i + 1] && tail[j] == ks[j + 1];
        }
      }
      WithoutInFirstOrder(form, tail, k);
      if ks[0] != k {
        var w := Without(tail, k);
        assert later: forall e :: e in tail ==> FirstAt(form, ks[0]) < FirstAt(form, e) by {
          forall e | e in tail ensures FirstAt(form, ks[0]) < FirstAt(form, e) {
            var m :| 0 <= m < |tail| && tail[m] == e;
            assert ks[m + 1] == e;
          }
        }
        var r := [ks[0]] + w;
        forall i, j | 0 <= i < j < |r| ensures FirstAt(form, r[i]) < FirstAt(form, r[j]) {
          assert r[j] == w[j - 1] && w[j - 1] in w;
          if i > 0 { assert r[i] == w[i - 1]; }
        }
      }
    }
  }

  /** Iteration visits the keys in the order of their first submitted
      pair, which decides which value wins when two keys name one slot. */
  lemma {:induction false} KeysInFirstOrder(form: FormData)
    ensures InFirstOrder(form, Keys(form))
    decreases |form|
  {
    if form != [] {
      var x, tail := form[0].0, form[1..];
      KeysInFirstOrder(tail);
      var w := Without(Keys(tail), x);
      WithoutInFirstOrder(tail, Keys(tail), x);
      forall k | k != x ensures FirstAt(form, k) == 1 + FirstAt(tail, k) {
      }
      var r := [x] + w;
      assert Keys(form) == r;
      forall i, j | 0 <= i < j < |r| ensures FirstAt(form, r[i]) < FirstAt(form, r[j]) {
        assert r[j] == w[j - 1] && w[j - 1] in w && r[j] != x;
        if i > 0 {
          assert r[i] == w[i - 1] && w[i - 1] in w && r[i] != x;
          assert FirstAt(tail, w[i - 1]) < FirstAt(tail, w[j - 1]);
        } else {
          assert FirstAt(form, r[i]) == 0;
        }
      }
    }
  }
}
