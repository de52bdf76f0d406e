/** The newsletter panel of the dashboard (src/app/components/DashEmails.jsx): the subscribers
    fetched from `/api/newsletter/subscribers?activeOnly=false`, the search and status filters
    over them, the selection of emails and the export text. */
module DashEmails {
  import opened Text
  import opened Numbers
  import opened Sorting
  import Watchlist
  import opened Newsletter

  predicate MatchesSearch(term: string, s: SubscriberView) {
    ContainsInsensitive(s.email, term)
  }

  predicate MatchesStatus(status: string, s: SubscriberView) {
    status == "all" || (status == "active" && s.isActive) || (status == "inactive" && !s.isActive)
  }

  /** `filteredSubscribers`. */
  function FilteredSubscribers(subscribers: seq<SubscriberView>, term: string, status: string): seq<SubscriberView> {
    Filter(subscribers, s => MatchesSearch(term, s) && MatchesStatus(status, s))
  }

  function Emails(subscribers: seq<SubscriberView>): (es: seq<string>)
  {
    seq(|subscribers|, k requires 0 <= k < |subscribers| => subscribers[k].email)
  }

  /** The filters show exactly the subscribers whose email holds the term (ignoring case) and
      whose status matches; "Showing" never exceeds "Total Subscribers". */
  lemma FilteredExactly(subscribers: seq<SubscriberView>, term: string, status: string)
    ensures var r := FilteredSubscribers(subscribers, term, status);
            && |r| <= |subscribers|
            && (forall k :: 0 <= k < |r| ==> MatchesSearch(term, r[k]) && MatchesStatus(status, r[k]) && r[k] in subscribers)
            && (forall k :: 0 <= k < |subscribers| && MatchesSearch(term, subscribers[k]) && MatchesStatus(status, subscribers[k]) ==>
                  subscribers[k] in r)
            && (status == "active" ==> forall k :: 0 <= k < |r| ==> r[k].isActive)
            && (status == "inactive" ==> forall k :: 0 <= k < |r| ==> !r[k].isActive)
  {
    var r := FilteredSubscribers(subscribers, term, status);
    FilterKeeps(subscribers, s => MatchesSearch(term, s) && MatchesStatus(status, s));
    forall k | 0 <= k < |r| ensures r[k] in subscribers {
      assert r[k] in multiset(r);
    }
  }

  /** `exportEmails`: the shown emails, one per line, in the order shown. */
  function ExportText(filtered: seq<SubscriberView>): string {
    Join(Emails(filtered), "\n")
  }

  /** Splitting the export at line breaks gives back the emails, provided there is at least one
      and none holds a line break. */
  lemma ExportRoundTrip(filtered: seq<SubscriberView>)
    requires |filtered| > 0
    requires forall k :: 0 <= k < |filtered| ==> '\n' !in filtered[k].email
    ensures Split(ExportText(filtered), '\n') == Emails(filtered)
  {
    SplitJoin(Emails(filtered), '\n');
  }

  /** `toggleEmailSelection`: a selected email is removed (every copy of it), any other is
      appended. */
  function Toggled(selected: seq<string>, email: string): seq<string> {
    if email in selected then Filter(selected, e => e != email) else selected + [email]
  }

  /** Toggling flips the email's membership and leaves every other email's membership, and
      the order of the rest, as it was; toggling an absent email twice restores the list. */
  lemma ToggleFacts(selected: seq<string>, email: string)
    ensures var r := Toggled(selected, email);
            && (email in r <==> email !in selected)
            && (forall e :: e != email ==> (e in r <==> e in selected))
            && (email !in selected ==> Toggled(r, email) == selected)
  {
    var r := Toggled(selected, email);
    if email in selected {
      FilterKeeps(selected, e => e != email);
      forall e | e != email && e in r ensures e in selected {
        assert e in multiset(r);
      }
    } else {
      FilterAll(selected, e => e != email);
      assert Filter(selected + [email], e => e != email) == selected by {
        FilterAppendDropped(selected, email);
      }
    }
  }

  lemma FilterAppendDropped(s: seq<string>, x: string)
    requires x !in s
    ensures Filter(s + [x], e => e != x) == s
  {
    FilterDropsLast(s, x);
  }

  lemma {:induction false} FilterDropsLast(s: seq<string>, x: string)
    requires x !in s
    ensures Filter(s + [x], e => e != x) == s
  {
    if s == [] {
      assert [] + [x] == [x];
    } else {
      assert (s + [x])[1..] == s[1..] + [x];
      FilterDropsLast(s[1..], x);
    }
  }

  /** `selectAllEmails`: clears the selection when it is as long as the shown list, otherwise
      selects every shown email in shown order. Only lengths are compared. */
  function SelectAll(selected: seq<string>, filtered: seq<SubscriberView>): (r: seq<string>)
  {
    if |selected| == |filtered| then [] else Emails(filtered)
  }

  /** Because only lengths are compared, a selection of other emails that happens to be as long
      as the shown list is cleared rather than replaced. */
  lemma SelectAllComparesLengths(selected: seq<string>, filtered: seq<SubscriberView>)
    requires |selected| == |filtered| > 0 && selected != Emails(filtered)
    ensures SelectAll(selected, filtered) == [] && SelectAll([], filtered) == Emails(filtered)
  {
  }

  /** The header checkbox. */
  predicate HeaderChecked(selected: seq<string>, filtered: seq<SubscriberView>) {
    |selected| == |filtered| && |filtered| > 0
  }

  /** Clicking "select all" on an unchecked header with something shown selects everything
      shown, which checks the header; on a checked header it clears the selection, which
      unchecks it. */
  lemma SelectAllFlipsHeader(selected: seq<string>, filtered: seq<SubscriberView>)
    requires |filtered| > 0
    ensures HeaderChecked(SelectAll(selected, filtered), filtered) <==> !HeaderChecked(selected, filtered)
  {
  }

  /** The panel's request: page and limit left to their defaults, inactive subscribers too. */
  const PanelParams := SubscribersParams(None, None, Some("false"))

  /** The request reads as page 1 of 20 with inactive subscribers included. */
  lemma PanelQuery()
    ensures QueryOf(PanelParams) == SubscribersQuery(1, 20, false)
  {
  }

  /** The list the panel receives from a store is its first page of 20, so the
      "Total Subscribers" card, which counts that list, never shows more than 20. */
  lemma PanelSeesFirstPage(subs: seq<Watchlist.Subscriber>)
    ensures var r := RunQuery(subs, SubscribersQuery(1, 20, false));
            r.SubscriberList? && |r.subscribers| == Min(20, |subs|) && r.pagination.total == |subs|
  {
    ListSubscribersPage(subs, SubscribersQuery(1, 20, false));
    FilterAll(subs, (s: Watchlist.Subscriber) => !false || s.isActive);
  }

  class DashEmailsState {
    var subscribers: seq<SubscriberView>
    var searchTerm: string
    var statusFilter: string
    var selectedEmails: seq<string>

    constructor ()
      ensures subscribers == [] && searchTerm == "" && statusFilter == "all" && selectedEmails == []
    {
      subscribers := [];
      searchTerm := "";
      statusFilter := "all";
      selectedEmails := [];
    }

    function Shown(): seq<SubscriberView>
      reads this
    {
      FilteredSubscribers(subscribers, searchTerm, statusFilter)
    }

    /** `fetchSubscribers`: a successful reply replaces the list; a failed one, or a failed
        request (`None`), keeps it. */
    method SubscribersFetched(reply: Option<SubscribersResponse>)
      modifies this`subscribers
      ensures reply.Some? && reply.value.SubscriberList? ==> subscribers == reply.value.subscribers
      ensures reply.None? || reply.value.SubscribersFailed? ==> subscribers == old(subscribers)
    {
      if reply.Some? && reply.value.SubscriberList? {
        subscribers := reply.value.subscribers;
      }
    }

    method ToggleEmailSelection(email: string)
      modifies this`selectedEmails
      ensures selectedEmails == Toggled(old(selectedEmails), email)
      ensures email in selectedEmails <==> email !in old(selectedEmails)
    {
      ToggleFacts(selectedEmails, email);
      if email in selectedEmails {
        selectedEmails := Filter(selectedEmails, e => e != email);
      } else {
        selectedEmails := selectedEmails + [email];
      }
    }

    method SelectAllEmails()
      modifies this`selectedEmails
      ensures selectedEmails == SelectAll(old(selectedEmails), Shown())
      ensures |Shown()| > 0 ==> (HeaderChecked(selectedEmails, Shown()) <==> !HeaderChecked(old(selectedEmails), Shown()))
    {
      var filtered := FilteredSubscribers(subscribers, searchTerm, statusFilter);
      if |filtered| > 0 {
        SelectAllFlipsHeader(selectedEmails, filtered);
      }
      if |selectedEmails| == |filtered| {
        selectedEmails := [];
      } else {
        selectedEmails := Emails(filtered);
      }
    }
  }
}
