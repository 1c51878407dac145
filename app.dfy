/** The request handlers of `app.py` acting on the store: the `children`
    collection and the local snapshot of the last registration. */
module App {
  import opened Wrappers
  import opened Records
  import opened Handlers
  import Form

  class ChildrenService {
    /** The `children` collection, keyed by card id. */
    var children: Collection
    /** The snapshot `save_cache` writes: the last registered record. */
    var cache: Option<Record>

    constructor (children: Collection, cache: Option<Record>)
      ensures this.children == children && this.cache == cache
    {
      this.children := children;
      this.cache := cache;
    }

    /** `home()`, with `current` the tracker's uid at the time of the request. */
    method Home(current: Option<string>, lastScan: string) returns (page: Page)
      modifies this
      ensures (page, children) == Resolve(old(children), current, lastScan)
      ensures children.Keys == old(children).Keys
      ensures current.None? || current.value !in old(children) ==> children == old(children)
      ensures cache == old(cache)
    {
      if current == None {
        return Waiting;
      }
      var uid := current.value;
      if uid in children {
        var data := children[uid];
        children := UpdateDocument(children, uid, map[LastScan := Str(lastScan)]);
        page := Dashboard(data);
      } else {
        page := NewRegistration(uid);
      }
    }

    /** `save_new()`: writes the new record over whatever was stored under
        its card id and snapshots it; a missing field stops the request
        before either write. */
    method SaveNew(form: Form.FormData, lastScan: string) returns (reply: Reply)
      modifies this
      ensures match Register(form, lastScan)
        case Failure(missing) =>
          reply == BadRequest(missing) && children == old(children) && cache == old(cache)
        case Success(rec) =>
          && reply == Redirect
          && rec[CardId].Str?
          && children == SetDocument(old(children), rec[CardId].s, rec)
          && cache == Some(rec)
    {
      var parsed := ParseRegistration(form);
      if parsed.Failure? {
        return BadRequest(parsed.error);
      }
      var data := NewChild(parsed.value, lastScan);
      children := SetDocument(children, parsed.value.cardId, data);
      cache := Some(data);
      reply := Redirect;
    }

    /** `update_vaccines()`: replaces the stored vaccine map of an existing
        document with the submitted `vaccine_` fields and marks it updated.
        An update the store refuses (no such document, or an empty slot
        name) raises, so the request fails with nothing written. */
    method UpdateVaccines(form: Form.FormData, lastScan: string) returns (reply: Reply)
      modifies this
      ensures match ReviseVaccines(form, lastScan)
        case Failure(missing) =>
          reply == BadRequest(missing) && children == old(children)
        case Success((cardId, fields)) =>
          match TryUpdate(old(children), cardId, fields)
          case None => reply == ServerError && children == old(children)
          case Some(c) => reply == Redirect && children == c
      ensures cache == old(cache)
    {
      var cardId := Form.Get(form, "card_id");
      if cardId.None? {
        return BadRequest("card_id");
      }
      var updated := CollectVaccines(form);
      var written := TryUpdate(children, cardId.value, map[
        Vaccines := Nested(updated),
        LastScan := Str(lastScan),
        Status := Str(Updated)]);
      if written.None? {
        return ServerError;
      }
      children := written.value;
      reply := Redirect;
    }
  }

  /** A client of the service: submitting a complete registration form
      and then showing the card's page reaches the dashboard of the new,
      pending record. */
  method RegisterAndShow(reg: Registration, ts: string, ts': string) returns (page: Page)
    ensures page == Dashboard(NewChild(reg, ts))
    ensures page.child[Status] == Str(Pending)
    ensures page.child[Vaccines].Nested? && FreshSchedule(page.child[Vaccines].fields)
  {
    var service := new ChildrenService(map[], None);
    RegisterThenResolve(map[], reg, ts, ts');
    var reply := service.SaveNew(FormOf(reg), ts);
    page := service.Home(Some(reg.cardId), ts');
  }
}
