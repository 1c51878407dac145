/** What the three request handlers of `app.py` compute: the page `home`
    shows and the writes `save_new` and `update_vaccines` make, as
    functions of the collection, the current card and the submitted form. */
module Handlers {
  import opened Wrappers
  import opened Records
  import Form
  import Text

  /** The three views `home` can answer with. */
  datatype Page = Waiting | Dashboard(child: Record) | NewRegistration(cardId: string)

  /** The answer of a form handler: a redirect to `/`, the refusal Flask
      sends when a required form field is missing, or the server error an
      exception raised by the store turns into. */
  datatype Reply = Redirect | BadRequest(missing: string) | ServerError

  /** `home()` for the current card: the page shown and the collection
      afterwards. An existing document is shown as it was before its
      `last_scan` is restamped; a missing one only leads to the
      registration page. */
  function Resolve(c: Collection, current: Option<string>, lastScan: string): (r: (Page, Collection))
    ensures r.1.Keys == c.Keys
    ensures current.None? ==> r == (Waiting, c)
    ensures current.Some? && current.value !in c ==> r == (NewRegistration(current.value), c)
    ensures current.Some? && current.value in c ==> r.0 == Dashboard(c[current.value])
  {
    match current
    case None => (Waiting, c)
    case Some(uid) =>
      if uid in c then (Dashboard(c[uid]), UpdateDocument(c, uid, map[LastScan := Str(lastScan)]))
      else (NewRegistration(uid), c)
  }

  /** A scan of a known card changes its `last_scan` and nothing else. */
  lemma ResolveTouchesOnlyLastScan(c: Collection, uid: string, lastScan: string)
    requires uid in c
    ensures var c' := Resolve(c, Some(uid), lastScan).1;
      && c'.Keys == c.Keys
      && c'[uid][LastScan] == Str(lastScan)
      && c'[uid].Keys == c[uid].Keys + {LastScan}
      && (forall f :: f in c[uid] && f != LastScan ==> c'[uid][f] == c[uid][f])
      && (forall k :: k in c && k != uid ==> c'[k] == c[k])
  {
  }

  /** The form fields `save_new` reads, in the order it reads them. */
  const RegistrationFields: seq<string> :=
    ["card_id", "name", "dob", "parent_email", "parent_phone", "state", "district", "panchayat"]

  /** The index of the first of `names[from..]` the form lacks. */
  function FirstMissing(form: Form.FormData, names: seq<string>, from: nat): (r: Option<nat>)
    requires from <= |names|
    ensures r.None? ==> forall i :: from <= i < |names| ==> Form.Get(form, names[i]).Some?
    ensures r.Some? ==> from <= r.value < |names| && Form.Get(form, names[r.value]).None?
                        && forall i :: from <= i < r.value ==> Form.Get(form, names[i]).Some?
    decreases |names| - from
  {
    if from == |names| then None
    else if Form.Get(form, names[from]).None? then Some(from)
    else FirstMissing(form, names, from + 1)
  }

  /** Reading the registration fields one by one, as `save_new` does:
      the first missing one ends the request. */
  function ParseRegistration(form: Form.FormData): (r: Result<Registration, string>)
    ensures r.Success? <==> forall i :: 0 <= i < |RegistrationFields| ==> Form.Get(form, RegistrationFields[i]).Some?
    ensures r.Failure? ==> r.error in RegistrationFields && Form.Get(form, r.error).None?
    ensures r.Success? ==>
              && Form.Get(form, "card_id") == Some(r.value.cardId)
              && Form.Get(form, "name") == Some(r.value.name)
              && Form.Get(form, "dob") == Some(r.value.dob)
              && Form.Get(form, "parent_email") == Some(r.value.parentEmail)
              && Form.Get(form, "parent_phone") == Some(r.value.parentPhone)
              && Form.Get(form, "state") == Some(r.value.state)
              && Form.Get(form, "district") == Some(r.value.district)
              && Form.Get(form, "panchayat") == Some(r.value.panchayat)
  {
    match FirstMissing(form, RegistrationFields, 0)
    case Some(i) => Failure(RegistrationFields[i])
    case None =>
      assert forall i :: 0 <= i < |RegistrationFields| ==> Form.Get(form, RegistrationFields[i]).Some?;
      Success(Registration(
        Form.Get(form, RegistrationFields[0]).value, Form.Get(form, RegistrationFields[1]).value,
        Form.Get(form, RegistrationFields[2]).value, Form.Get(form, RegistrationFields[3]).value,
        Form.Get(form, RegistrationFields[4]).value, Form.Get(form, RegistrationFields[5]).value,
        Form.Get(form, RegistrationFields[6]).value, Form.Get(form, RegistrationFields[7]).value))
  }

  /** `save_new()`: the record to write under its card id, or the
      missing field that stops the request before any write. */
  function Register(form: Form.FormData, lastScan: string): (r: Result<Record, string>)
    ensures r.Failure? <==> ParseRegistration(form).Failure?
    ensures r.Success? ==> r.value == NewChild(ParseRegistration(form).value, lastScan)
  {
    match ParseRegistration(form)
    case Failure(missing) => Failure(missing)
    case Success(reg) => Success(NewChild(reg, lastScan))
  }

  /** The registration form a browser submits for `reg`, fields in the order of the page. */
  function FormOf(reg: Registration): Form.FormData
  {
    [("card_id", reg.cardId), ("name", reg.name), ("dob", reg.dob),
     ("parent_email", reg.parentEmail), ("parent_phone", reg.parentPhone),
     ("state", reg.state), ("district", reg.district), ("panchayat", reg.panchayat)]
  }

  /** Reading a complete registration form gives back exactly what was entered. */
  lemma ParseFormOf(reg: Registration)
    ensures ParseRegistration(FormOf(reg)) == Success(reg)
  {
    var form := FormOf(reg);
    forall i | 0 <= i < |RegistrationFields|
      ensures Form.Get(form, RegistrationFields[i]).Some?
    {
      FieldOfFormOf(reg, i);
    }
    FormOfHead(reg);
    FormOfTail(reg);
  }

  /** The first four registration fields of `FormOf(reg)` hold their entered values. */
  lemma FormOfHead(reg: Registration)
    ensures var form := FormOf(reg);
      && Form.Get(form, "card_id") == Some(reg.cardId)
      && Form.Get(form, "name") == Some(reg.name)
      && Form.Get(form, "dob") == Some(reg.dob)
      && Form.Get(form, "parent_email") == Some(reg.parentEmail)
  {
    var form := FormOf(reg);
    forall i | 0 <= i < 4
      ensures Form.Get(form, RegistrationFields[i]) == Some(form[i].1)
    {
      FieldOfFormOf(reg, i);
    }
    assert Form.Get(form, RegistrationFields[0]) == Some(reg.cardId);
    assert Form.Get(form, RegistrationFields[1]) == Some(reg.name);
    assert Form.Get(form, RegistrationFields[2]) == Some(reg.dob);
    assert Form.Get(form, RegistrationFields[3]) == Some(reg.parentEmail);
  }

  /** The last four registration fields of `FormOf(reg)` hold their entered values. */
  lemma FormOfTail(reg: Registration)
    ensures var form := FormOf(reg);
      && Form.Get(form, "parent_phone") == Some(reg.parentPhone)
      && Form.Get(form, "state") == Some(reg.state)
      && Form.Get(form, "district") == Some(reg.district)
      && Form.Get(form, "panchayat") == Some(reg.panchayat)
  {
    var form := FormOf(reg);
    forall i | 4 <= i < 8
      ensures Form.Get(form, RegistrationFields[i]) == Some(form[i].1)
    {
      FieldOfFormOf(reg, i);
    }
    assert Form.Get(form, RegistrationFields[4]) == Some(reg.parentPhone);
    assert Form.Get(form, RegistrationFields[5]) == Some(reg.state);
    assert Form.Get(form, RegistrationFields[6]) == Some(reg.district);
    assert Form.Get(form, RegistrationFields[7]) == Some(reg.panchayat);
  }

  /** The `i`-th registration field of `FormOf(reg)` is read from its `i`-th pair. */
  lemma FieldOfFormOf(reg: Registration, i: nat)
    requires i < |RegistrationFields|
    ensures Form.Get(FormOf(reg), RegistrationFields[i]) == Some(FormOf(reg)[i].1)
  {
    var form := FormOf(reg);
    RegistrationFieldsDistinct();
    assert forall j :: 0 <= j < |form| ==> form[j].0 == RegistrationFields[j];
    Form.GetFirst(form, i, RegistrationFields[i]);
  }

  /** The eight registration fields have different names. */
  lemma RegistrationFieldsDistinct()
    ensures forall i, j :: 0 <= i < j < |RegistrationFields| ==> RegistrationFields[i] != RegistrationFields[j]
  {
  }

  /** Registering and then scanning the card shows the new record under
      the submitted card id: the whole preset schedule unset and the
      `pending` tag. */
  lemma RegisterThenResolve(c: Collection, reg: Registration, ts: string, ts': string)
    ensures var rec := NewChild(reg, ts);
      && Register(FormOf(reg), ts) == Success(rec)
      && Resolve(SetDocument(c, reg.cardId, rec), Some(reg.cardId), ts').0 == Dashboard(rec)
      && rec[Vaccines].Nested? && FreshSchedule(rec[Vaccines].fields)
      && rec[Status] == Str(Pending)
  {
    ParseFormOf(reg);
  }

  /** The form keys `update_vaccines` picks up, and the slot each names. */
  const VaccinePrefix: string := "vaccine_"

  predicate IsVaccineKey(key: string)
  {
    Text.StartsWith(key, VaccinePrefix)
  }

  /** `key.replace("vaccine_", "")`: removes every occurrence, not only the prefix. */
  function SlotName(key: string): string
  {
    Text.RemoveAll(key, VaccinePrefix)
  }

  /** The vaccine map after the loop of `update_vaccines` has visited
      `keys` in order. */
  function VaccinesFrom(form: Form.FormData, keys: seq<string>): map<string, string>
    requires forall k :: k in keys ==> Form.Get(form, k).Some?
    decreases |keys|
  {
    if keys == [] then map[]
    else
      var m := VaccinesFrom(form, keys[..|keys| - 1]);
      var key := keys[|keys| - 1];
      if IsVaccineKey(key) then m[SlotName(key) := Form.Get(form, key).value] else m
  }

  /** The map built from every key of the form. */
  function VaccineUpdates(form: Form.FormData): map<string, string>
  {
    VaccinesFrom(form, Form.Keys(form))
  }

  /** `keys[i]` is a vaccine key naming slot `n`. */
  predicate Names(keys: seq<string>, i: int, n: string)
  {
    0 <= i < |keys| && IsVaccineKey(keys[i]) && SlotName(keys[i]) == n
  }

  /** `keys[i]` is the last vaccine key of `keys` naming slot `n`. */
  predicate LastNames(keys: seq<string>, i: int, n: string)
  {
    Names(keys, i, n) && forall j :: i < j < |keys| ==> !Names(keys, j, n)
  }

  /** The map holds one slot per visited vaccine key, named by the key
      without `vaccine_`; keys without the prefix contribute nothing. */
  lemma {:induction false} VaccinesFromSlots(form: Form.FormData, keys: seq<string>)
    requires forall k :: k in keys ==> Form.Get(form, k).Some?
    ensures forall n :: n in VaccinesFrom(form, keys) <==> exists i :: Names(keys, i, n)
    decreases |keys|
  {
    if keys != [] {
      var p := keys[..|keys| - 1];
      VaccinesFromSlots(form, p);
      forall n ensures n in VaccinesFrom(form, keys) <==> exists i :: Names(keys, i, n) {
        if Names(keys, |keys| - 1, n) {
          assert n in VaccinesFrom(form, keys);
        } else {
          assert n in VaccinesFrom(form, keys) <==> n in VaccinesFrom(form, p);
          if n in VaccinesFrom(form, p) {
            var i :| Names(p, i, n);
            assert Names(keys, i, n);
          }
          if exists i :: Names(keys, i, n) {
            var i :| Names(keys, i, n);
            assert Names(p, i, n);
          }
        }
      }
    }
  }

  /** A key that is last to name a slot stays last when a key naming
      another slot is appended. */
  lemma LastNamesExtends(keys: seq<string>, i: int, n: string)
    requires keys != [] && LastNames(keys[..|keys| - 1], i, n) && !Names(keys, |keys| - 1, n)
    ensures LastNames(keys, i, n)
  {
    var p := keys[..|keys| - 1];
    assert Names(keys, i, n) by { assert p[i] == keys[i]; }
    forall j | i < j < |keys| ensures !Names(keys, j, n) {
      if j < |p| {
        assert p[j] == keys[j] && !Names(p, j, n);
      }
    }
  }

  /** Each slot holds the value of the last visited key that names it. */
  lemma {:induction false} VaccinesFromValues(form: Form.FormData, keys: seq<string>)
    requires forall k :: k in keys ==> Form.Get(form, k).Some?
    ensures forall n :: n in VaccinesFrom(form, keys) ==>
              exists i :: LastNames(keys, i, n) && VaccinesFrom(form, keys)[n] == Form.Get(form, keys[i]).value
    decreases |keys|
  {
    if keys != [] {
      var p, key := keys[..|keys| - 1], keys[|keys| - 1];
      VaccinesFromValues(form, p);
      var m, m' := VaccinesFrom(form, p), VaccinesFrom(form, keys);
      forall n | n in m'
        ensures exists i :: LastNames(keys, i, n) && m'[n] == Form.Get(form, keys[i]).value
      {
        if Names(keys, |keys| - 1, n) {
          assert LastNames(keys, |keys| - 1, n);
        } else {
          var i :| LastNames(p, i, n) && m[n] == Form.Get(form, p[i]).value;
          LastNamesExtends(keys, i, n);
          assert p[i] == keys[i];
        }
      }
    }
  }

  /** `update_vaccines` keeps exactly the submitted `vaccine_` fields: a form
      without one gives the empty map, and a slot appears only if a key
      naming it was submitted. */
  lemma VaccineUpdatesFromPrefixedKeys(form: Form.FormData)
    ensures (forall k :: k in Form.Keys(form) ==> !IsVaccineKey(k)) ==> VaccineUpdates(form) == map[]
    ensures forall n :: n in VaccineUpdates(form) ==>
              exists key :: key in Form.Keys(form) && IsVaccineKey(key) && SlotName(key) == n
                            && Form.Get(form, key) == Some(VaccineUpdates(form)[n])
  {
    var keys := Form.Keys(form);
    VaccinesFromSlots(form, keys);
    VaccinesFromValues(form, keys);
    if forall k :: k in keys ==> !IsVaccineKey(k) {
      forall n ensures n !in VaccineUpdates(form) {
        assert forall i :: !Names(keys, i, n);
      }
    }
    forall n | n in VaccineUpdates(form)
      ensures exists key :: key in keys && IsVaccineKey(key) && SlotName(key) == n
                            && Form.Get(form, key) == Some(VaccineUpdates(form)[n])
    {
      var i :| LastNames(keys, i, n) && VaccineUpdates(form)[n] == Form.Get(form, keys[i]).value;
      assert keys[i] in keys;
    }
  }

  /** When no slot name itself contains `vaccine_` (true of every preset
      slot), the map holds exactly the slots submitted as `vaccine_<slot>`,
      each with its submitted value. */
  lemma VaccineUpdatesAreSubmittedSlots(form: Form.FormData, slot: string)
    requires !Text.Contains(slot, VaccinePrefix)
    requires forall k :: k in Form.Keys(form) && IsVaccineKey(k) ==>
               !Text.Contains(k[|VaccinePrefix|..], VaccinePrefix)
    ensures slot in VaccineUpdates(form) <==> Form.Get(form, VaccinePrefix + slot).Some?
    ensures slot in VaccineUpdates(form) ==> Some(VaccineUpdates(form)[slot]) == Form.Get(form, VaccinePrefix + slot)
  {
    var keys := Form.Keys(form);
    var key := VaccinePrefix + slot;
    VaccinesFromSlots(form, keys);
    VaccinesFromValues(form, keys);
    Text.RemovePrefixRoundTrip(VaccinePrefix, slot);
    forall k | k in keys && IsVaccineKey(k) && SlotName(k) == slot ensures k == key {
      Text.StripPrefixAgrees(k, VaccinePrefix);
      assert k == VaccinePrefix + k[|VaccinePrefix|..];
    }
    if Form.Get(form, key).Some? {
      var i :| 0 <= i < |keys| && keys[i] == key;
      assert Names(keys, i, slot);
    }
    if slot in VaccineUpdates(form) {
      var i :| LastNames(keys, i, slot) && VaccineUpdates(form)[slot] == Form.Get(form, keys[i]).value;
      assert keys[i] in keys;
    }
  }

  /** Two keys naming one slot: the key submitted later wins, because the
      loop visits keys in the order they were first submitted. */
  lemma LaterKeyForSlotWins()
    ensures VaccineUpdates([("vaccine_BCG", "2024-01-01"), ("vaccine_vaccine_BCG", "2024-02-02")])
            == map["BCG" := "2024-02-02"]
  {
    var form := [("vaccine_BCG", "2024-01-01"), ("vaccine_vaccine_BCG", "2024-02-02")];
    var pat := VaccinePrefix;
    assert "vaccine_BCG"[..|pat|] == pat && "vaccine_BCG"[|pat|..] == "BCG";
    assert "vaccine_vaccine_BCG"[..|pat|] == pat && "vaccine_vaccine_BCG"[|pat|..] == "vaccine_BCG";
    assert SlotName("vaccine_BCG") == "BCG";
    assert SlotName("vaccine_vaccine_BCG") == "BCG";
    var keys := Form.Keys(form);
    assert keys == ["vaccine_BCG", "vaccine_vaccine_BCG"];
    assert IsVaccineKey(keys[0]) && IsVaccineKey(keys[1]);
    Form.GetFirst(form, 0, keys[0]);
    Form.GetFirst(form, 1, keys[1]);
    assert keys[..1] == ["vaccine_BCG"] && keys[..1][..0] == [];
    assert VaccinesFrom(form, keys[..1]) == map["BCG" := "2024-01-01"];
  }

  /** Visiting one more key assigns its slot, if it is a vaccine key. */
  lemma VaccinesFromStep(form: Form.FormData, keys: seq<string>, i: nat)
    requires i < |keys| && forall k :: k in keys ==> Form.Get(form, k).Some?
    ensures var m := VaccinesFrom(form, keys[..i]);
      VaccinesFrom(form, keys[..i + 1])
        == if IsVaccineKey(keys[i]) then m[SlotName(keys[i]) := Form.Get(form, keys[i]).value] else m
  {
    assert keys[..i + 1][..i] == keys[..i];
  }

  /** The loop of `update_vaccines`, filling the map one form key at a time. */
  method CollectVaccines(form: Form.FormData) returns (updated: map<string, string>)
    ensures updated == VaccineUpdates(form)
    ensures forall n :: n in updated ==>
              exists key :: key in Form.Keys(form) && IsVaccineKey(key) && SlotName(key) == n
                            && Form.Get(form, key) == Some(updated[n])
  {
    var keys := Form.Keys(form);
    updated := map[];
    var i := 0;
    while i < |keys|
      invariant 0 <= i <= |keys|
      invariant updated == VaccinesFrom(form, keys[..i])
    {
      var key := keys[i];
      VaccinesFromStep(form, keys, i);
      if Text.StartsWith(key, VaccinePrefix) {
        var name := Text.RemoveAll(key, VaccinePrefix);
        updated := updated[name := Form.Get(form, key).value];
      }
      i := i + 1;
    }
    assert keys[..|keys|] == keys;
    VaccineUpdatesFromPrefixedKeys(form);
  }

  /** `update_vaccines()`: the card whose document is updated and the
      fields written to it, or the missing `card_id` that stops the request. */
  function ReviseVaccines(form: Form.FormData, lastScan: string): (r: Result<(string, Record), string>)
    ensures r.Failure? <==> Form.Get(form, "card_id").None?
    ensures r.Failure? ==> r.error == "card_id"
    ensures r.Success? ==> Form.Get(form, "card_id") == Some(r.value.0)
    ensures r.Success? ==> r.value.1.Keys == {Vaccines, LastScan, Status}
    ensures r.Success? ==> r.value.1[Vaccines] == Nested(VaccineUpdates(form))
    ensures r.Success? ==> r.value.1[Status] == Str(Updated) && r.value.1[LastScan] == Str(lastScan)
  {
    match Form.Get(form, "card_id")
    case None => Failure("card_id")
    case Some(cardId) =>
      Success((cardId, map[Vaccines := Nested(VaccineUpdates(form)), LastScan := Str(lastScan), Status := Str(Updated)]))
  }

  /** The store refuses the fields `update_vaccines` writes exactly when a
      submitted `vaccine_` key has an empty slot name, as `vaccine_` itself
      or `vaccine_vaccine_` have. */
  lemma RefusedExactlyOnEmptySlot(form: Form.FormData, lastScan: string)
    requires ReviseVaccines(form, lastScan).Success?
    ensures !AcceptsFields(ReviseVaccines(form, lastScan).value.1) <==>
              exists key :: key in Form.Keys(form) && IsVaccineKey(key) && SlotName(key) == ""
  {
    var keys := Form.Keys(form);
    var fields := ReviseVaccines(form, lastScan).value.1;
    VaccinesFromSlots(form, keys);
    assert !AcceptsFields(fields) <==> "" in VaccineUpdates(form);
    if "" in VaccineUpdates(form) {
      var i :| Names(keys, i, "");
      assert keys[i] in keys;
    }
    if exists key :: key in keys && IsVaccineKey(key) && SlotName(key) == "" {
      var key :| key in keys && IsVaccineKey(key) && SlotName(key) == "";
      var i :| 0 <= i < |keys| && keys[i] == key;
      assert Names(keys, i, "");
    }
  }

  /** A bare `vaccine_` field names the empty slot, so its update is refused. */
  lemma BarePrefixIsRefused(lastScan: string)
    ensures ReviseVaccines([("card_id", "c1"), ("vaccine_", "x")], lastScan).Success?
    ensures !AcceptsFields(ReviseVaccines([("card_id", "c1"), ("vaccine_", "x")], lastScan).value.1)
  {
    var form := [("card_id", "c1"), ("vaccine_", "x")];
    Form.GetFirst(form, 0, "card_id");
    assert "vaccine_"[..|VaccinePrefix|] == VaccinePrefix && "vaccine_"[|VaccinePrefix|..] == "";
    assert IsVaccineKey("vaccine_") && SlotName("vaccine_") == "";
    assert Form.Keys(form) == ["card_id", "vaccine_"];
    RefusedExactlyOnEmptySlot(form, lastScan);
  }

  /** After an update, scanning the card shows the submitted vaccine map in
      place of the old one (replaced, not merged) and the `updated` tag;
      every other field, and every other document, is as before. */
  lemma ReviseThenResolve(c: Collection, form: Form.FormData, ts: string, ts': string)
    requires ReviseVaccines(form, ts).Success? && ReviseVaccines(form, ts).value.0 in c
    ensures var (id, fields) := ReviseVaccines(form, ts).value;
      var c' := UpdateDocument(c, id, fields);
      && c'.Keys == c.Keys
      && (forall k :: k in c && k != id ==> c'[k] == c[k])
      && Resolve(c', Some(id), ts').0 == Dashboard(c'[id])
      && c'[id][Vaccines] == Nested(VaccineUpdates(form))
      && c'[id][Status] == Str(Updated)
      && (forall f :: f in c[id] && f !in {Vaccines, LastScan, Status} ==> c'[id][f] == c[id][f])
  {
  }
}
