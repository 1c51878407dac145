/** The `children` collection of the document store: documents keyed by
    card identifier, and the fixed shape of a newly registered child. */
module Records {
  import Wrappers

  /** A top-level field of a document: a string, or a one-level map of
      strings (`region` and `vaccines`). */
  datatype Value = Str(s: string) | Nested(fields: map<string, string>)

  /** The top-level fields a child document has, under the keys named by `Key`. */
  datatype Field =
    | CardId | ClinicId | Name | Dob | NfcId | ParentEmail | ParentPhone
    | Region | Vaccines | Status | LastScan

  /** The key each field is stored under in the document; `KeyIsInjective`
      shows that `Field` stands for these names one to one. */
  function Key(f: Field): string
  {
    match f
    case CardId => "card_id"
    case ClinicId => "clinic_id"
    case Name => "name"
    case Dob => "dob"
    case NfcId => "nfc_id"
    case ParentEmail => "parent_email"
    case ParentPhone => "parent_phone"
    case Region => "region"
    case Vaccines => "vaccines"
    case Status => "status"
    case LastScan => "last_scan"
  }

  /** Different fields are stored under different keys. */
  lemma KeyIsInjective(f: Field, g: Field)
    ensures Key(f) == Key(g) <==> f == g
  {
  }

  type Record = map<Field, Value>

  const AllFields: set<Field> :=
    {CardId, ClinicId, Name, Dob, NfcId, ParentEmail, ParentPhone, Region, Vaccines, Status, LastScan}

  type Collection = map<string, Record>

  /** `document(key).set(rec)`: replaces the whole document at `key`,
      creating it if absent; other documents are untouched. */
  function SetDocument(c: Collection, key: string, rec: Record): (r: Collection)
    ensures r.Keys == c.Keys + {key} && r[key] == rec
    ensures forall k :: k in c && k != key ==> r[k] == c[k]
  {
    c[key := rec]
  }

  /** `document(key).update(fields)` on an existing document: each named
      top-level field is replaced wholesale, every other field and every
      other document stays as it was. */
  function UpdateDocument(c: Collection, key: string, fields: Record): (r: Collection)
    requires key in c
    ensures r.Keys == c.Keys
    ensures r[key].Keys == c[key].Keys + fields.Keys
    ensures forall f :: f in fields ==> r[key][f] == fields[f]
    ensures forall f :: f in c[key] && f !in fields ==> r[key][f] == c[key][f]
    ensures forall k :: k in c && k != key ==> r[k] == c[k]
  {
    c[key := c[key] + fields]
  }

  /** The store client accepts the fields of an update only when no map
      value has an empty key: each key of a map becomes a component of a
      field path, and an empty component is rejected. */
  predicate AcceptsFields(fields: Record)
  {
    forall f :: f in fields && fields[f].Nested? ==> "" !in fields[f].fields
  }

  /** `document(key).update(fields)` as the store carries it out: refused,
      with nothing written, when the document does not exist or the
      fields are rejected; otherwise the merge of `UpdateDocument`. */
  function TryUpdate(c: Collection, key: string, fields: Record): (r: Wrappers.Option<Collection>)
    ensures r.None? <==> key !in c || !AcceptsFields(fields)
    ensures r.Some? ==> r.value.Keys == c.Keys && r.value[key] == c[key] + fields
    ensures r.Some? ==> forall k :: k in c && k != key ==> r.value[k] == c[k]
  {
    if key in c && AcceptsFields(fields) then Wrappers.Some(UpdateDocument(c, key, fields)) else Wrappers.None
  }

  /** Writing the same document twice leaves what one write leaves. */
  lemma SetTwiceIsSetOnce(c: Collection, key: string, rec: Record)
    ensures SetDocument(SetDocument(c, key, rec), key, rec) == SetDocument(c, key, rec)
  {
  }

  /** The token every vaccine slot of a new record holds. */
  const Unset: string := "null"

  /** The thirteen vaccine slots of the preset schedule. */
  const VaccineSlots: seq<string> :=
    ["BCG", "DTP1", "DTP2", "DTP3", "Hepatitis_B1", "Hepatitis_B2", "Hepatitis_B3",
     "IPV1", "IPV2", "IPV3", "MMR1", "OPV0", "TD"]

  /** A vaccine map holding exactly the preset slots, each unset. */
  predicate FreshSchedule(m: map<string, string>)
  {
    && (forall k :: k in m ==> k in VaccineSlots && m[k] == Unset)
    && (forall i :: 0 <= i < |VaccineSlots| ==> VaccineSlots[i] in m)
  }

  /** The vaccine map `save_new` attaches to every new record. */
  function PresetVaccines(): (m: map<string, string>)
    ensures FreshSchedule(m)
  {
    map k | k in VaccineSlots :: Unset
  }

  /** The lifecycle tags a record carries. */
  const Pending: string := "pending"
  const Updated: string := "updated"

  /** The fields a registration form supplies. */
  datatype Registration = Registration(
    cardId: string, name: string, dob: string,
    parentEmail: string, parentPhone: string,
    state: string, district: string, panchayat: string)

  /** The record `save_new` writes for a registration made at `lastScan`:
      every field present, the three identifiers aliased to the card,
      the preset vaccine schedule and the `pending` tag. */
  function NewChild(reg: Registration, lastScan: string): (r: Record)
    ensures r.Keys == AllFields
    ensures r[CardId] == r[ClinicId] == r[NfcId] == Str(reg.cardId)
    ensures r[Name] == Str(reg.name) && r[Dob] == Str(reg.dob)
    ensures r[ParentEmail] == Str(reg.parentEmail) && r[ParentPhone] == Str(reg.parentPhone)
    ensures r[Region] == Nested(map["state" := reg.state, "district" := reg.district, "panchayat" := reg.panchayat])
    ensures r[Vaccines].Nested? && FreshSchedule(r[Vaccines].fields)
    ensures r[Status] == Str(Pending) && r[LastScan] == Str(lastScan)
  {
    map[
      CardId := Str(reg.cardId),
      ClinicId := Str(reg.cardId),
      Name := Str(reg.name),
      Dob := Str(reg.dob),
      NfcId := Str(reg.cardId),
      ParentEmail := Str(reg.parentEmail),
      ParentPhone := Str(reg.parentPhone),
      Region := Nested(map["state" := reg.state, "district" := reg.district, "panchayat" := reg.panchayat]),
      Vaccines := Nested(PresetVaccines()),
      Status := Str(Pending),
      LastScan := Str(lastScan)]
  }

  /** The region of a new record has exactly its three parts, as submitted. */
  lemma NewChildRegion(reg: Registration, lastScan: string)
    ensures NewChild(reg, lastScan)[Region].fields.Keys == {"state", "district", "panchayat"}
    ensures NewChild(reg, lastScan)[Region].fields["state"] == reg.state
    ensures NewChild(reg, lastScan)[Region].fields["district"] == reg.district
    ensures NewChild(reg, lastScan)[Region].fields["panchayat"] == reg.panchayat
  {
  }

  /** The preset schedule names thirteen different slots. */
  lemma SlotsAreDistinct()
    ensures |VaccineSlots| == 13
    ensures forall i, j :: 0 <= i < j < |VaccineSlots| ==> VaccineSlots[i] != VaccineSlots[j]
  {
  }
}
