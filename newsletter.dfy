/** The newsletter routes: subscribe (src/app/api/newsletter/subscribe/route.js), unsubscribe
    (src/app/api/newsletter/unsubscribe/route.js) and the subscriber listing
    (src/app/api/newsletter/subscribers/route.js), over a store of subscribers keyed by their
    normalised email. A record moves from absent to active, and then between active and
    inactive; it is never removed. */
module Newsletter {
  import opened Text
  import opened Numbers
  import opened Sorting
  import opened Schema
  import opened Watchlist

  /** A JSON reply: status, `success`, the `message` or `error` text, and the record sent back
      as `data` (if any). */
  datatype Reply = Reply(status: int, success: bool, text: string, data: Option<Subscriber>)

  const InvalidRequestMessage := "Please provide a valid email address"
  const AlreadySubscribedMessage := "This email is already subscribed"
  const ResubscribedMessage := "Successfully resubscribed to newsletter"
  const SubscribedMessage := "Successfully subscribed to newsletter"
  const SubscribeFailedMessage := "Failed to subscribe to newsletter"
  const EmailRequiredMessage := "Email is required"
  const NotFoundMessage := "Email not found in our subscription list"
  const AlreadyUnsubscribedMessage := "This email is already unsubscribed"
  const UnsubscribedMessage := "Successfully unsubscribed from newsletter"

  /** The request body; `preferences` and `metadata` default to `{}`. */
  datatype SubscribeRequest = SubscribeRequest(
    email: Option<string>,
    preferences: Option<PreferencesInput>,
    metadata: Option<MetadataInput>)

  /** `!email || !/^\S+@\S+\.\S+$/.test(email)` is false. */
  predicate EmailAccepted(email: Option<string>) {
    email.Some? && email.value != "" && LooseEmail(email.value)
  }

  /** The failures the subscribe route's `catch` tells apart. */
  datatype SubscribeError =
    | DuplicateEmail                        // store error code 11000
    | ValidationError(errors: seq<FieldError>)
    | OtherFailure

  function SubscribeFailure(e: SubscribeError): (r: Reply)
    ensures !r.success && r.data.None?
    ensures r.status == 409 <==> e.DuplicateEmail?
    ensures r.status == 400 <==> e.ValidationError?
    ensures e.ValidationError? ==> r.text == Join(Messages(e.errors), ", ")
  {
    match e
    case DuplicateEmail => Reply(409, false, AlreadySubscribedMessage, None)
    case ValidationError(errors) => Reply(400, false, Join(Messages(errors), ", "), None)
    case OtherFailure => Reply(500, false, SubscribeFailedMessage, None)
  }

  /** An inactive record brought back: active again, preferences and metadata merged with the
      request's (the request's keys win), `updatedAt` now; email, `subscribedAt` and source kept. */
  function Reactivated(s: Subscriber, prefs: PreferencesInput, meta: MetadataInput, now: int): (u: Subscriber)
    ensures u.isActive && u.email == s.email && u.subscribedAt == s.subscribedAt && u.source == s.source
    ensures u.preferences == MergePreferences(s.preferences, prefs)
    ensures u.metadata == MergeMetadata(s.metadata, meta)
  {
    s.(isActive := true, preferences := MergePreferences(s.preferences, prefs),
       metadata := MergeMetadata(s.metadata, meta), updatedAt := now)
  }

  /** A store state and the reply that produced it. */
  datatype Transition = Transition(reply: Reply, subscribers: map<string, Subscriber>)

  /** What a subscribe request does to the store: the request check, then the lookup by the
      normalised email. */
  function SubscribeSpec(subs: map<string, Subscriber>, req: SubscribeRequest, now: int): Transition {
    if !EmailAccepted(req.email) then
      Transition(Reply(400, false, InvalidRequestMessage, None), subs)
    else
      Lookup(subs, NormaliseEmail(req.email.value), req.preferences.GetOr(NoPreferences),
             req.metadata.GetOr(NoMetadata), now)
  }

  /** After the lookup of `n`: a conflict, a reactivation or a new record. */
  function Lookup(subs: map<string, Subscriber>, n: string, prefs: PreferencesInput, meta: MetadataInput, now: int): Transition {
    if n in subs then
      if subs[n].isActive then Transition(Reply(409, false, AlreadySubscribedMessage, None), subs)
      else Resubscribe(subs, n, prefs, meta, now)
    else Enrol(subs, n, prefs, meta, now)
  }

  /** The inactive record of `n` reactivated and saved, unless it no longer validates. */
  function Resubscribe(subs: map<string, Subscriber>, n: string, prefs: PreferencesInput, meta: MetadataInput, now: int): Transition
    requires n in subs
  {
    var u := Reactivated(subs[n], prefs, meta, now);
    if SubscriberErrors(u) != [] then Transition(SubscribeFailure(ValidationError(SubscriberErrors(u))), subs)
    else Transition(Reply(200, true, ResubscribedMessage, Some(u)), subs[n := u])
  }

  /** A new record for `n` created, unless it does not validate. */
  function Enrol(subs: map<string, Subscriber>, n: string, prefs: PreferencesInput, meta: MetadataInput, now: int): Transition {
    var c := NewSubscriber(n, prefs, meta, now);
    if SubscriberErrors(c) != [] then Transition(SubscribeFailure(ValidationError(SubscriberErrors(c))), subs)
    else Transition(Reply(201, true, SubscribedMessage, Some(c)), subs[n := c])
  }

  /** A record kept under `e`: its own email, normalised, and valid for the schema. */
  predicate Stored(e: string, s: Subscriber) {
    s.email == e && NormaliseEmail(e) == e && ValidSubscriber(s)
  }

  /** What the store keeps true: every record is stored under its own normalised email and is
      valid. At most one record per normalised email follows from the keying. */
  predicate StoreValid(subs: map<string, Subscriber>) {
    forall e | e in subs :: Stored(e, subs[e])
  }

  lemma StoreUpdate(subs: map<string, Subscriber>, n: string, s: Subscriber)
    requires StoreValid(subs) && Stored(n, s)
    ensures StoreValid(subs[n := s])
  {
    var updated := subs[n := s];
    forall e | e in updated ensures Stored(e, updated[e]) {
      if e != n {
        assert Stored(e, subs[e]);
      }
    }
  }

  /** Normalising is idempotent. */
  lemma NormaliseTwice(email: string)
    ensures NormaliseEmail(NormaliseEmail(email)) == NormaliseEmail(email)
  {
    var n := NormaliseEmail(email);
    ToLowerFacts(n);
    assert ToLower(n) == n;
  }

  /** The request is answered 400 before any lookup when its email is missing or malformed. */
  lemma SubscribeRejectsMalformed(subs: map<string, Subscriber>, req: SubscribeRequest, now: int)
    requires !EmailAccepted(req.email)
    ensures SubscribeSpec(subs, req, now) == Transition(Reply(400, false, InvalidRequestMessage, None), subs)
  {
  }

  /** After the lookup: the store stays valid, no record is removed, and only the record of `n`
      may be added or changed; the reply is one of 400, 409, 200, 201. */
  lemma LookupInvariant(subs: map<string, Subscriber>, n: string, prefs: PreferencesInput, meta: MetadataInput, now: int)
    requires StoreValid(subs) && NormaliseEmail(n) == n
    ensures var t := Lookup(subs, n, prefs, meta, now);
            && StoreValid(t.subscribers)
            && subs.Keys <= t.subscribers.Keys <= subs.Keys + {n}
            && (forall e | e in subs && e != n :: t.subscribers[e] == subs[e])
            && t.reply.status in {400, 409, 200, 201}
  {
    var t := Lookup(subs, n, prefs, meta, now);
    if n in subs && !subs[n].isActive {
      ResubscribeInvariant(subs, n, prefs, meta, now);
      UpdateKeeps(subs, n, Reactivated(subs[n], prefs, meta, now), t.subscribers);
    } else if n !in subs {
      EnrolInvariant(subs, n, prefs, meta, now);
      UpdateKeeps(subs, n, NewSubscriber(n, prefs, meta, now), t.subscribers);
    }
  }

  lemma UpdateKeeps(subs: map<string, Subscriber>, n: string, s: Subscriber, result: map<string, Subscriber>)
    requires result == subs || result == subs[n := s]
    ensures subs.Keys <= result.Keys <= subs.Keys + {n}
    ensures forall e | e in subs && e != n :: result[e] == subs[e]
  {
  }

  lemma ResubscribeInvariant(subs: map<string, Subscriber>, n: string, prefs: PreferencesInput, meta: MetadataInput, now: int)
    requires StoreValid(subs) && n in subs
    ensures var t := Resubscribe(subs, n, prefs, meta, now);
            && StoreValid(t.subscribers)
            && (t.subscribers == subs || t.subscribers == subs[n := Reactivated(subs[n], prefs, meta, now)])
            && t.reply.status in {400, 200}
  {
    var u := Reactivated(subs[n], prefs, meta, now);
    SubscriberErrorsEmpty(u);
    if SubscriberErrors(u) == [] {
      assert Stored(n, subs[n]);
      StoreUpdate(subs, n, u);
    }
  }

  lemma EnrolInvariant(subs: map<string, Subscriber>, n: string, prefs: PreferencesInput, meta: MetadataInput, now: int)
    requires StoreValid(subs) && NormaliseEmail(n) == n
    ensures var t := Enrol(subs, n, prefs, meta, now);
            && StoreValid(t.subscribers)
            && (t.subscribers == subs || t.subscribers == subs[n := NewSubscriber(n, prefs, meta, now)])
            && t.reply.status in {400, 201}
  {
    var c := NewSubscriber(n, prefs, meta, now);
    SubscriberErrorsEmpty(c);
    if SubscriberErrors(c) == [] {
      StoreUpdate(subs, n, c);
    }
  }

  /** Subscribing keeps the store valid, never removes a record, and touches at most the record
      of the normalised email; a rejected request leaves the store as it was. */
  lemma SubscribeInvariant(subs: map<string, Subscriber>, req: SubscribeRequest, now: int)
    requires StoreValid(subs)
    ensures var t := SubscribeSpec(subs, req, now);
            && StoreValid(t.subscribers)
            && subs.Keys <= t.subscribers.Keys
            && t.reply.status in {400, 409, 200, 201}
            && (EmailAccepted(req.email) ==>
                  var n := NormaliseEmail(req.email.value);
                  t.subscribers.Keys <= subs.Keys + {n}
                  && forall e | e in subs && e != n :: t.subscribers[e] == subs[e])
            && (!EmailAccepted(req.email) ==> t.subscribers == subs)
  {
    if EmailAccepted(req.email) {
      NormaliseTwice(req.email.value);
      LookupInvariant(subs, NormaliseEmail(req.email.value), req.preferences.GetOr(NoPreferences),
                      req.metadata.GetOr(NoMetadata), now);
    }
  }

  /** After the lookup: 201 exactly when there was no record and the new one validates, 409
      exactly when the record was active, 200 for a reactivation that keeps `subscribedAt`; a
      success leaves an active record for `n` and sends it back; 409 and 400 change nothing. */
  lemma LookupOutcomes(subs: map<string, Subscriber>, n: string, prefs: PreferencesInput, meta: MetadataInput, now: int)
    ensures var t := Lookup(subs, n, prefs, meta, now);
            && (t.reply.status == 200 || t.reply.status == 201 ==>
                  n in t.subscribers && t.subscribers[n].isActive && t.reply.data == Some(t.subscribers[n]))
            && (t.reply.status == 201 <==> n !in subs && SubscriberErrors(NewSubscriber(n, prefs, meta, now)) == [])
            && (t.reply.status == 200 ==> n in subs && !subs[n].isActive
                                          && t.subscribers[n].subscribedAt == subs[n].subscribedAt)
            && (t.reply.status == 409 <==> n in subs && subs[n].isActive)
            && (t.reply.status == 409 || t.reply.status == 400 ==> t.subscribers == subs)
  {
  }

  /** Subscribing an address whose record is active changes nothing, so repeating a successful
      subscribe is answered 409. */
  lemma SubscribeTwice(subs: map<string, Subscriber>, req: SubscribeRequest, now: int, later: int)
    requires EmailAccepted(req.email)
    requires SubscribeSpec(subs, req, now).reply.success
    ensures var t := SubscribeSpec(subs, req, now);
            var t2 := SubscribeSpec(t.subscribers, req, later);
            t2.reply.status == 409 && t2.subscribers == t.subscribers
  {
    var n := NormaliseEmail(req.email.value);
    var prefs := req.preferences.GetOr(NoPreferences);
    var meta := req.metadata.GetOr(NoMetadata);
    var t := Lookup(subs, n, prefs, meta, now);
    assert SubscribeSpec(subs, req, now) == t;
    assert SubscribeSpec(t.subscribers, req, later) == Lookup(t.subscribers, n, prefs, meta, later);
    LookupTwice(subs, n, prefs, meta, now, later);
  }

  lemma LookupTwice(subs: map<string, Subscriber>, n: string, prefs: PreferencesInput, meta: MetadataInput, now: int, later: int)
    requires Lookup(subs, n, prefs, meta, now).reply.success
    ensures var t := Lookup(subs, n, prefs, meta, now);
            Lookup(t.subscribers, n, prefs, meta, later) == Transition(Reply(409, false, AlreadySubscribedMessage, None), t.subscribers)
  {
    var t := Lookup(subs, n, prefs, meta, now);
    if n in subs {
      var u := Reactivated(subs[n], prefs, meta, now);
      assert t.subscribers == subs[n := u] && u.isActive;
    } else {
      var c := NewSubscriber(n, prefs, meta, now);
      assert t.subscribers == subs[n := c] && c.isActive;
    }
  }

  /** What an unsubscribe request does: 400 without an email, then the lookup by
      `toLowerCase().trim()` (no shape check here), 404 when absent, 409 when already inactive,
      otherwise the record is made inactive and saved. */
  function UnsubscribeSpec(subs: map<string, Subscriber>, email: Option<string>, now: int): Transition {
    if email.None? || email.value == "" then
      Transition(Reply(400, false, EmailRequiredMessage, None), subs)
    else
      var n := NormaliseEmail(email.value);
      if n !in subs then
        Transition(Reply(404, false, NotFoundMessage, None), subs)
      else if !subs[n].isActive then
        Transition(Reply(409, false, AlreadyUnsubscribedMessage, None), subs)
      else
        Transition(Reply(200, true, UnsubscribedMessage, None), subs[n := Deactivated(subs[n], now)])
  }

  /** `isActive = false` and the save's new `updatedAt`; nothing else changes. */
  function Deactivated(s: Subscriber, now: int): (u: Subscriber)
    ensures !u.isActive && u.updatedAt == now
    ensures u.(isActive := s.isActive, updatedAt := s.updatedAt) == s
  {
    s.(isActive := false, updatedAt := now)
  }

  /** Unsubscribing keeps the store valid and its set of emails exactly the same (records are
      never deleted); on success only the record's `isActive` and `updatedAt` change, and every
      failure leaves the store as it was. */
  lemma UnsubscribeInvariant(subs: map<string, Subscriber>, email: Option<string>, now: int)
    requires StoreValid(subs)
    ensures var t := UnsubscribeSpec(subs, email, now);
            && StoreValid(t.subscribers)
            && t.subscribers.Keys == subs.Keys
            && t.reply.status in {400, 404, 409, 200}
            && (t.reply.status != 200 ==> t.subscribers == subs)
            && (t.reply.status == 200 ==>
                  var n := NormaliseEmail(email.value);
                  && n in subs && subs[n].isActive
                  && t.subscribers == subs[n := Deactivated(subs[n], now)])
  {
    if email.Some? && email.value != "" {
      var n := NormaliseEmail(email.value);
      if n in subs && subs[n].isActive {
        assert Stored(n, subs[n]);
        StoreUpdate(subs, n, Deactivated(subs[n], now));
      }
    }
  }

  /** An email that was never subscribed is answered 404, and an inactive one 409. */
  lemma UnsubscribeOutcomes(subs: map<string, Subscriber>, email: Option<string>, now: int)
    requires email.Some? && email.value != ""
    ensures var t := UnsubscribeSpec(subs, email, now);
            var n := NormaliseEmail(email.value);
            && (t.reply.status == 404 <==> n !in subs)
            && (t.reply.status == 409 <==> n in subs && !subs[n].isActive)
            && (t.reply.status == 200 <==> n in subs && subs[n].isActive)
  {
  }

  /** Subscribe, unsubscribe, subscribe again with the same request: answered 201, 200 and 200,
      and the record comes back active with its original `subscribedAt`. */
  lemma ResubscribeKeepsDate(subs: map<string, Subscriber>, n: string, prefs: PreferencesInput, meta: MetadataInput,
                             t0: int, t1: int, t2: int)
    requires NormaliseEmail(n) == n
    requires Lookup(subs, n, prefs, meta, t0).reply.status == 201
    ensures var a := Lookup(subs, n, prefs, meta, t0);
            var b := UnsubscribeSpec(a.subscribers, Some(n), t1);
            var c := Lookup(b.subscribers, n, prefs, meta, t2);
            && b.reply.status == 200 && c.reply.status == 200
            && c.subscribers[n].isActive && c.subscribers[n].subscribedAt == t0
  {
    var a := Lookup(subs, n, prefs, meta, t0);
    var created := NewSubscriber(n, prefs, meta, t0);
    LookupOutcomes(subs, n, prefs, meta, t0);
    assert a.subscribers[n] == created;
    var b := UnsubscribeSpec(a.subscribers, Some(n), t1);
    assert b.subscribers[n] == Deactivated(created, t1);
    var u := Reactivated(b.subscribers[n], prefs, meta, t2);
    MergeLaws(DefaultPreferences, EmptyMetadata, prefs, meta);
    assert u == created.(updatedAt := t2);
    SubscriberErrorsEmpty(u);
    SubscriberErrorsEmpty(created);
  }

  /** The subscriber store. */
  class SubscriberStore {
    var subscribers: map<string, Subscriber>

    predicate Valid()
      reads this
    {
      StoreValid(subscribers)
    }

    constructor ()
      ensures subscribers == map[] && Valid()
    {
      subscribers := map[];
    }

    /** `POST /api/newsletter/subscribe`. */
    method Subscribe(req: SubscribeRequest, now: int) returns (r: Reply)
      requires Valid()
      modifies this
      ensures Valid()
      ensures r == SubscribeSpec(old(subscribers), req, now).reply
      ensures subscribers == SubscribeSpec(old(subscribers), req, now).subscribers
    {
      SubscribeInvariant(subscribers, req, now);
      if req.email.None? || req.email.value == "" || !LooseEmail(req.email.value) {
        return Reply(400, false, InvalidRequestMessage, None);
      }
      var n := NormaliseEmail(req.email.value);
      var prefs := req.preferences.GetOr(NoPreferences);
      var meta := req.metadata.GetOr(NoMetadata);
      if n in subscribers {
        var existing := subscribers[n];
        if existing.isActive {
          return Reply(409, false, AlreadySubscribedMessage, None);
        }
        existing := existing.(isActive := true);
        existing := existing.(preferences := MergePreferences(existing.preferences, prefs));
        existing := existing.(metadata := MergeMetadata(existing.metadata, meta));
        existing := existing.(updatedAt := now);
        var errors := SubscriberErrors(existing);
        if errors != [] {
          return SubscribeFailure(ValidationError(errors));
        }
        subscribers := subscribers[n := existing];
        return Reply(200, true, ResubscribedMessage, Some(existing));
      }
      var created := NewSubscriber(n, prefs, meta, now);
      var errors := SubscriberErrors(created);
      if errors != [] {
        return SubscribeFailure(ValidationError(errors));
      }
      subscribers := subscribers[n := created];
      r := Reply(201, true, SubscribedMessage, Some(created));
    }

    /** `POST /api/newsletter/unsubscribe`. */
    method Unsubscribe(email: Option<string>, now: int) returns (r: Reply)
      requires Valid()
      modifies this
      ensures Valid()
      ensures r == UnsubscribeSpec(old(subscribers), email, now).reply
      ensures subscribers == UnsubscribeSpec(old(subscribers), email, now).subscribers
    {
      UnsubscribeInvariant(subscribers, email, now);
      if email.None? || email.value == "" {
        return Reply(400, false, EmailRequiredMessage, None);
      }
      var n := NormaliseEmail(email.value);
      if n !in subscribers {
        return Reply(404, false, NotFoundMessage, None);
      }
      var subscriber := subscribers[n];
      if !subscriber.isActive {
        return Reply(409, false, AlreadyUnsubscribedMessage, None);
      }
      subscriber := subscriber.(isActive := false, updatedAt := now);
      subscribers := subscribers[n := subscriber];
      r := Reply(200, true, UnsubscribedMessage, None);
    }
  }

  // ---------------------------------------------------------------- GET subscribers

  datatype SubscribersParams = SubscribersParams(page: Option<string>, limit: Option<string>, activeOnly: Option<string>)

  /** A listed record: `.select("-metadata.ipAddress -metadata.userAgent")` leaves only the
      referrer of the metadata. */
  datatype SubscriberView = SubscriberView(
    email: string,
    isActive: bool,
    subscribedAt: int,
    source: string,
    preferences: Preferences,
    referrer: Option<string>,
    createdAt: int,
    updatedAt: int)

  function ViewOf(s: Subscriber): SubscriberView {
    SubscriberView(s.email, s.isActive, s.subscribedAt, s.source, s.preferences, s.metadata.referrer,
                   s.createdAt, s.updatedAt)
  }

  function ViewsOf(ss: seq<Subscriber>): (vs: seq<SubscriberView>)
  {
    seq(|ss|, k requires 0 <= k < |ss| => ViewOf(ss[k]))
  }

  datatype Pagination = Pagination(page: int, limit: int, total: nat, pages: int)

  datatype SubscribersResponse =
    | SubscriberList(subscribers: seq<SubscriberView>, pagination: Pagination)
    | SubscribersFailed(status: int, error: string)

  /** The query after its parameters are read. */
  datatype SubscribersQuery = SubscribersQuery(page: int, limit: int, activeOnly: bool)

  /** Page 1 and limit 20 by default; `activeOnly` unless the parameter is exactly "false". */
  function QueryOf(params: SubscribersParams): (q: SubscribersQuery)
    ensures params.page.None? ==> q.page == 1
    ensures params.limit.None? ==> q.limit == 20
    ensures q.page != 0 && q.limit != 0
    ensures q.activeOnly <==> params.activeOnly != Some("false")
  {
    SubscribersQuery(IntParam(params.page, 1), IntParam(params.limit, 20), params.activeOnly != Some("false"))
  }

  function SubscribedKey(s: Subscriber): Key {
    Key(s.subscribedAt, 0)
  }

  /** The records the query selects, newest subscription first. */
  function Records(subs: seq<Subscriber>, activeOnly: bool): seq<Subscriber> {
    SortBy(Filter(subs, (s: Subscriber) => !activeOnly || s.isActive), SubscribedKey, true)
  }

  /** `GET /api/newsletter/subscribers` over the stored records. */
  function ListSubscribers(subs: seq<Subscriber>, params: SubscribersParams): SubscribersResponse {
    RunQuery(subs, QueryOf(params))
  }

  /** The store query and the reply; a negative skip makes the store fail (500). */
  function RunQuery(subs: seq<Subscriber>, q: SubscribersQuery): SubscribersResponse
    requires q.limit != 0
  {
    PageOf(Records(subs, q.activeOnly), q)
  }

  /** `.skip((page - 1) * limit).limit(limit)` over the selected records, and the reply built
      from it. */
  function PageOf(matching: seq<Subscriber>, q: SubscribersQuery): SubscribersResponse
    requires q.limit != 0
  {
    match Window(matching, (q.page - 1) * q.limit, q.limit)
    case None => SubscribersFailed(500, "Failed to fetch subscribers")
    case Some(window) =>
      SubscriberList(ViewsOf(window), Pagination(q.page, q.limit, |matching|, CeilDiv(|matching|, q.limit)))
  }

  lemma PageOfShape(matching: seq<Subscriber>, q: SubscribersQuery)
    requires q.limit != 0
    ensures var r := PageOf(matching, q);
            var skip := Min((q.page - 1) * q.limit, |matching|);
            && (r.SubscribersFailed? <==> (q.page - 1) * q.limit < 0)
            && (r.SubscriberList? ==>
                  && r.pagination == Pagination(q.page, q.limit, |matching|, CeilDiv(|matching|, q.limit))
                  && skip + |r.subscribers| <= |matching|
                  && r.subscribers == ViewsOf(matching[skip..skip + |r.subscribers|])
                  && (q.limit > 0 ==> |r.subscribers| == Min(q.limit, |matching| - skip)))
  {
  }

  /** A decimal limit is read as written, 0 giving the default. */
  lemma SubscribersLimit(params: SubscribersParams, n: nat)
    requires params.limit == Some(DecimalString(n))
    ensures QueryOf(params).limit == if n == 0 then 20 else n
  {
    IntParamDecimal(n, 20);
  }

  /** A page: the run of records from `(page - 1) * limit` on, with `total` counting all
      records of the query and `pages = ceil(total / limit)`; the query fails exactly when the
      skip is negative. */
  lemma ListSubscribersPage(subs: seq<Subscriber>, q: SubscribersQuery)
    requires q.limit != 0
    ensures var r := RunQuery(subs, q);
            var matching := Records(subs, q.activeOnly);
            var skip := Min((q.page - 1) * q.limit, |matching|);
            && (r.SubscribersFailed? <==> (q.page - 1) * q.limit < 0)
            && (r.SubscriberList? ==>
                  && r.pagination == Pagination(q.page, q.limit, |matching|, CeilDiv(|matching|, q.limit))
                  && skip + |r.subscribers| <= |matching|
                  && r.subscribers == ViewsOf(matching[skip..skip + |r.subscribers|]))
  {
    PageOfShape(Records(subs, q.activeOnly), q);
  }

  /** With a positive limit a page holds `limit` records, or what is left after the skip. */
  lemma ListSubscribersPageSize(subs: seq<Subscriber>, q: SubscribersQuery)
    requires q.limit > 0 && RunQuery(subs, q).SubscriberList?
    ensures var matching := Records(subs, q.activeOnly);
            |RunQuery(subs, q).subscribers| == Min(q.limit, |matching| - Min((q.page - 1) * q.limit, |matching|))
  {
    PageOfShape(Records(subs, q.activeOnly), q);
  }

  /** Only active records when `activeOnly`, and newest subscription first. */
  lemma ListSubscribersMatch(subs: seq<Subscriber>, q: SubscribersQuery)
    requires q.limit != 0 && RunQuery(subs, q).SubscriberList?
    ensures var r := RunQuery(subs, q);
            && (q.activeOnly ==> forall k :: 0 <= k < |r.subscribers| ==> r.subscribers[k].isActive)
            && (forall i, j :: 0 <= i < j < |r.subscribers| ==>
                  r.subscribers[i].subscribedAt >= r.subscribers[j].subscribedAt)
  {
    var matching := Records(subs, q.activeOnly);
    var skip := Min((q.page - 1) * q.limit, |matching|);
    var r := RunQuery(subs, q);
    ListSubscribersPage(subs, q);
    RecordsSelected(subs, q.activeOnly);
    SliceSubscriberViews(matching, q.activeOnly, skip, skip + |r.subscribers|, r.subscribers);
  }

  /** The records paged over are exactly the stored records the query selects, newest
      subscription first. */
  lemma RecordsFacts(subs: seq<Subscriber>, activeOnly: bool)
    ensures var m := Records(subs, activeOnly);
            && (forall k :: 0 <= k < |m| ==> (!activeOnly || m[k].isActive) && m[k] in subs)
            && (forall k :: 0 <= k < |subs| && (!activeOnly || subs[k].isActive) ==> subs[k] in m)
            && Sorted(m, SubscribedKey, true)
  {
    SortFilterMembers(subs, (s: Subscriber) => !activeOnly || s.isActive, SubscribedKey, true);
  }

  lemma RecordsSelected(subs: seq<Subscriber>, activeOnly: bool)
    ensures var m := Records(subs, activeOnly);
            (forall k :: 0 <= k < |m| ==> !activeOnly || m[k].isActive) && Sorted(m, SubscribedKey, true)
  {
    RecordsFacts(subs, activeOnly);
  }

  lemma SliceSubscriberViews(matching: seq<Subscriber>, activeOnly: bool, lo: nat, hi: nat, vs: seq<SubscriberView>)
    requires lo <= hi <= |matching| && vs == ViewsOf(matching[lo..hi])
    requires forall k :: 0 <= k < |matching| ==> !activeOnly || matching[k].isActive
    requires Sorted(matching, SubscribedKey, true)
    ensures activeOnly ==> forall k :: 0 <= k < |vs| ==> vs[k].isActive
    ensures forall i, j :: 0 <= i < j < |vs| ==> vs[i].subscribedAt >= vs[j].subscribedAt
  {
    forall k | 0 <= k < |vs| ensures !activeOnly || vs[k].isActive {
      assert vs[k] == ViewOf(matching[lo + k]);
    }
    forall i, j | 0 <= i < j < |vs| ensures vs[i].subscribedAt >= vs[j].subscribedAt {
      assert vs[i] == ViewOf(matching[lo + i]) && vs[j] == ViewOf(matching[lo + j]);
      assert InOrder(SubscribedKey(matching[lo + i]), SubscribedKey(matching[lo + j]), true);
    }
  }


  /** The listing keeps a record's referrer and drops its address and user agent. */
  lemma ViewKeepsReferrer(s: Subscriber)
    ensures ViewOf(s).referrer == s.metadata.referrer && ViewOf(s).email == s.email
  {
  }
}
