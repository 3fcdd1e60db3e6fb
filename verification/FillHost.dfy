/**
 The native-messaging fill host. It serves one request at a time: fill a saved
 item, generate or save a sign-in, enroll an authenticator. What the human, the
 random source and the upstream answer is an argument of each request.
 */
module FillHost {
  import opened Protocol
  import Grants
  import opened Confirming
  import Passgen

  /** What became of one generate, save or enroll request. */
  datatype Event = Created(uuid: string, scope: string) | Attached(uuid: string, scope: string) | Nothing

  /** The scope and the id of the last item made here and not yet enrolled. */
  function Remembered(events: seq<Event>): (string, string) {
    if events == [] then ("", "")
    else
      match events[|events| - 1]
      case Created(uuid, scope) => (scope, uuid)
      case Attached(_, _) => ("", "")
      case Nothing => Remembered(events[..|events| - 1])
  }

  /** A seed goes only to the remembered item, for the remembered site. */
  ghost predicate Legal(events: seq<Event>) {
    forall k :: 0 <= k < |events| && events[k].Attached? ==>
      && Remembered(events[..k]) == (events[k].scope, events[k].uuid)
      && events[k].scope != "" && events[k].uuid != ""
  }

  ghost predicate Quiet(events: seq<Event>, i: nat, k: nat)
    requires k <= |events|
  {
    forall m :: i <= m < k ==> events[m] == Nothing
  }

  lemma {:induction false} RememberedIsLastCreated(events: seq<Event>)
    requires Remembered(events).1 != ""
    ensures exists j :: 0 <= j < |events| && Quiet(events, j + 1, |events|) &&
                        events[j] == Created(Remembered(events).1, Remembered(events).0)
  {
    var n := |events| - 1;
    if events[n] == Nothing {
      var front := events[..n];
      RememberedIsLastCreated(front);
      var j :| 0 <= j < |front| && Quiet(front, j + 1, |front|) &&
        front[j] == Created(Remembered(front).1, Remembered(front).0);
      assert Quiet(events, j + 1, |events|);
    } else {
      assert Quiet(events, n + 1, |events|);
    }
  }

  /**
   Over every run, a seed is attached only to the item this host made most recently, asked for on the same site,
   and nothing was made or attached in between: no item gets a second one.
   */
  lemma SeedGoesToLatest(events: seq<Event>, k: nat)
    requires Legal(events) && k < |events| && events[k].Attached?
    ensures exists j :: 0 <= j < k && Quiet(events, j + 1, k) &&
                        events[j] == Created(events[k].uuid, events[k].scope)
  {
    var front := events[..k];
    RememberedIsLastCreated(front);
    var j :| 0 <= j < |front| && Quiet(front, j + 1, |front|) &&
      front[j] == Created(Remembered(front).1, Remembered(front).0);
    assert forall m :: 0 <= m < k ==> front[m] == events[m];
    assert Quiet(events, j + 1, k);
  }

  function Creations(events: seq<Event>): nat {
    if events == [] then 0
    else Creations(events[..|events| - 1]) + (if events[|events| - 1].Created? then 1 else 0)
  }

  function Attachments(events: seq<Event>): nat {
    if events == [] then 0
    else Attachments(events[..|events| - 1]) + (if events[|events| - 1].Attached? then 1 else 0)
  }

  /** So there are never more seeds than items made, and one fewer while an item is waiting for its own. */
  lemma {:induction false} OneSeedPerCreation(events: seq<Event>)
    requires Legal(events)
    ensures Attachments(events) + (if Remembered(events).1 != "" then 1 else 0) <= Creations(events)
  {
    if events != [] {
      var front := events[..|events| - 1];
      assert forall k :: 0 <= k < |front| ==> front[k] == events[k] && front[..k] == events[..k];
      OneSeedPerCreation(front);
    }
  }

  // ---- the index ----

  datatype EntryKind = LoginEntry | PasskeyEntry | CardEntry | IdentityEntry

  datatype MatchEntry = MatchEntry(uuid: string, kind: EntryKind, hasTotp: bool)

  /** Whether the index offers an item for a page: cards and identities with no page of their own fit any. */
  predicate Offered(item: Item, url: RawUrl) {
    && !item.archived && item.kind.Fillable()
    && (((item.kind.Card? || item.kind.Identity?) && item.uris == []) || Grants.HostAllowed(item, url))
  }

  function EntryFor(item: Item): MatchEntry {
    MatchEntry(item.id,
               match item.kind
               case Passkey => PasskeyEntry
               case Card => CardEntry
               case Identity => IdentityEntry
               case _ => LoginEntry,
               item.hasTotp)
  }

  /** Ports as the URL parser gives them, in the page and in every item. */
  predicate PlainPorts(index: seq<Item>, url: RawUrl) {
    Grants.PlainPort(url) && forall item, u :: item in index && u in item.uris ==> Grants.PlainPort(u)
  }

  predicate OnPage(item: Item, url: RawUrl) {
    exists u :: u in item.uris && Grants.SamePlace(u, url)
  }

  /** What may be offered on a page: an item for its host, of a kind for filling, or a card or identity bound to no page. */
  predicate Fitting(item: Item, url: RawUrl) {
    && !item.archived
    && (item.kind == ApiKey || item.kind == Passkey || item.kind == Card || item.kind == Identity)
    && (OnPage(item, url) || ((item.kind == Card || item.kind == Identity) && item.uris == []))
  }

  /** An entry that says what the item is. */
  predicate Describes(e: MatchEntry, item: Item) {
    && e.uuid == item.id && e.hasTotp == item.hasTotp
    && (e.kind == PasskeyEntry <==> item.kind == Passkey)
    && (e.kind == CardEntry <==> item.kind == Card)
    && (e.kind == IdentityEntry <==> item.kind == Identity)
  }

  lemma OfferedIff(item: Item, url: RawUrl)
    requires Grants.PlainPort(url) && forall u :: u in item.uris ==> Grants.PlainPort(u)
    ensures Offered(item, url) <==> Fitting(item, url)
    ensures forall e :: EntryFor(item) == e <==> Describes(e, item)
  {
    hide Grants.HostAllowed, Grants.SamePlace, Grants.PlainPort;
    Grants.HostAllowedIff(item, url);
  }

  /** Exactly which entries a page gets: those that describe a fitting item of the index. */
  lemma MatchesIff(index: seq<Item>, url: RawUrl, e: MatchEntry)
    requires PlainPorts(index, url)
    ensures e in Matches(index, url) <==> exists item :: item in index && Fitting(item, url) && Describes(e, item)
  {
    hide Offered, EntryFor, Fitting, Describes, Grants.PlainPort;
    MatchesAreOffered(index, url, e);
    forall item | item in index
      ensures Offered(item, url) <==> Fitting(item, url)
      ensures EntryFor(item) == e <==> Describes(e, item)
    {
      OfferedIff(item, url);
    }
  }

  /** A seed may go exactly to the sign-in of that id, on its own page, not archived and without one. */
  lemma EnrollableIff(item: Item, uuid: string, url: RawUrl)
    requires Grants.PlainPort(url) && forall u :: u in item.uris ==> Grants.PlainPort(u)
    ensures Enrollable(item, uuid, url) <==>
            item.id == uuid && item.kind == ApiKey && !item.archived && !item.hasTotp && OnPage(item, url)
  {
    hide Grants.HostAllowed, Grants.SamePlace, Grants.PlainPort;
    Grants.HostAllowedIff(item, url);
  }

  /** A page is new exactly when no sign-in of the index, archived ones aside, is for it. */
  lemma NewHereMeans(index: seq<Item>, url: RawUrl)
    requires PlainPorts(index, url)
    ensures NewHere(index, url) <==>
            forall item :: item in index && item.kind == ApiKey && !item.archived ==> !OnPage(item, url)
  {
    hide Offered, EntryFor, OnPage, Grants.PlainPort;
    forall item | item in index
      ensures Offered(item, url) && IsLogin(item) <==> item.kind == ApiKey && !item.archived && OnPage(item, url)
    {
      OfferedIff(item, url);
      assert Describes(EntryFor(item), item);
    }
  }

  function Matches(index: seq<Item>, url: RawUrl): seq<MatchEntry> {
    if index == [] then []
    else
      var item := index[|index| - 1];
      Matches(index[..|index| - 1], url) + (if Offered(item, url) then [EntryFor(item)] else [])
  }

  /** The item may take a seed from this page. */
  predicate Enrollable(item: Item, uuid: string, url: RawUrl) {
    item.id == uuid && !item.archived && !item.hasTotp && item.kind.ApiKey? && Grants.HostAllowed(item, url)
  }

  predicate IsLogin(item: Item) {
    EntryFor(item).kind.LoginEntry?
  }

  /** No sign-in matches the page. */
  ghost predicate NewHere(index: seq<Item>, url: RawUrl) {
    forall item :: item in index && Offered(item, url) ==> !IsLogin(item)
  }

  lemma NewHereIff(index: seq<Item>, url: RawUrl)
    ensures NewHere(index, url) <==>
            !exists i :: 0 <= i < |Matches(index, url)| && Matches(index, url)[i].kind == LoginEntry
  {
    hide Offered, EntryFor;
    forall item | item in index && Offered(item, url)
      ensures EntryFor(item) in Matches(index, url)
    {
      MatchesAreOffered(index, url, EntryFor(item));
    }
    forall i | 0 <= i < |Matches(index, url)|
      ensures exists item :: item in index && Offered(item, url) && EntryFor(item) == Matches(index, url)[i]
    {
      MatchesAreOffered(index, url, Matches(index, url)[i]);
    }
  }

  function AskFor(scope: string, reuse: bool, prompt: Prompt): Ask {
    Ask(scope, reuse, prompt.now, prompt.ok, prompt.answered)
  }

  datatype Prompt = Prompt(now: Time, ok: bool, answered: Time)

  datatype Envelope = Envelope(itemId: string, number: string, cvv: string)

  const TOTP_PRESENT := "*"

  datatype Fill = LoginFill(uuid: string, totp: string) | CardFill(uuid: string, number: string, cvv: string)
                | IdentityFill(uuid: string)

  datatype Reply =
    | Failed(reason: string)
    | Made(uuid: string, password: string)
    | Saved(uuid: string)
    | Enrolled(uuid: string)

  class Host {
    const attached: bool
    const registrable: RawUrl -> string
    var confirmUntil: Option<Time>
    var confirmScope: string
    var index: seq<Item>
    var indexOk: bool
    var lastScope: string
    var lastUuid: string
    ghost var asks: seq<Ask>
    ghost var events: seq<Event>
    /** For each card sent with its verification code, which call asked for it. */
    ghost var shown: seq<nat>

    ghost predicate Valid()
      reads this
    {
      && Window(confirmUntil, confirmScope) == WindowAfter(asks)
      && Remembered(events) == (lastScope, lastUuid)
      && Legal(events)
      && OwnPrompts(asks, shown)
    }

    constructor (attached: bool, registrable: RawUrl -> string)
      ensures Valid() && asks == [] && events == [] && shown == []
      ensures this.attached == attached && this.registrable == registrable
    {
      this.attached, this.registrable := attached, registrable;
      confirmUntil, confirmScope := None, "";
      index, indexOk := [], false;
      lastScope, lastUuid := "", "";
      asks, events, shown := [], [], [];
    }

    /** Asks the human, unless the last prompt still vouches; without anyone to ask it refuses. */
    method Confirm(scope: string, reuse: bool, prompt: Prompt) returns (ok: bool)
      requires Valid()
      modifies `confirmUntil, `confirmScope, `asks
      ensures Valid()
      ensures if attached then asks == old(asks) + [AskFor(scope, reuse, prompt)] &&
                               ok == (VerdictAt(asks, |old(asks)|) != Refused) && (!reuse ==> ok == prompt.ok)
              else asks == old(asks) && !ok
    {
      if !attached {
        return false;
      }
      hide WindowAfter, VerdictAt, Legal, Remembered, OwnPrompts;
      ghost var a := AskFor(scope, reuse, prompt);
      OneMore(asks, a);
      OwnPromptsStay(asks, a, shown);
      asks := asks + [a];
      assert Legal(events) && Remembered(events) == (lastScope, lastUuid);
      if reuse && scope != "" && scope == confirmScope && confirmUntil.Some? && prompt.now < confirmUntil.value {
        return true;
      }
      if !prompt.ok {
        confirmUntil, confirmScope := None, "";
        return false;
      }
      if reuse && scope != "" {
        confirmUntil, confirmScope := Some(prompt.answered + CONFIRM_REUSE), scope;
      } else {
        confirmUntil, confirmScope := None, "";
      }
      return true;
    }

    method EnsureIndex(reload: Option<seq<Item>>)
      modifies `index, `indexOk
      ensures index == if !old(indexOk) && reload.Some? then reload.value else old(index)
      ensures indexOk == (old(indexOk) || reload.Some?)
    {
      if !indexOk && reload.Some? {
        index, indexOk := reload.value, true;
      }
    }

    method InvalidateIndex()
      modifies `index, `indexOk
      ensures index == [] && !indexOk
    {
      index, indexOk := [], false;
    }

    method JsonMatch(url: RawUrl, reload: Option<seq<Item>>) returns (entries: seq<MatchEntry>)
      modifies `index, `indexOk
      ensures url.Blank? ==> entries == [] && index == old(index) && indexOk == old(indexOk)
      ensures !url.Blank? ==> entries == Matches(index, url)
      ensures !url.Blank? ==> index == if !old(indexOk) && reload.Some? then reload.value else old(index)
      ensures !url.Blank? ==> indexOk == (old(indexOk) || reload.Some?)
    {
      entries := [];
      if url.Blank? {
        return;
      }
      EnsureIndex(reload);
      for i := 0 to |index|
        invariant entries == Matches(index[..i], url)
      {
        assert index[..i + 1][..i] == index[..i];
        if !index[i].archived && index[i].kind.Fillable() {
          var unbound := (index[i].kind.Card? || index[i].kind.Identity?) && |index[i].uris| == 0;
          if unbound || Grants.HostAllowed(index[i], url) {
            entries := entries + [EntryFor(index[i])];
          }
        }
      }
      assert index[..|index|] == index;
    }

    /**
     A reply to a fill request is for a matching item, and was confirmed for the page's own site; a verification
     code goes out only under a prompt of its own.
     */
    method JsonFill(url: RawUrl, uuid: string, reload: Option<seq<Item>>, prompt: Prompt,
                    login: Option<(string, string)>, origin: Option<Envelope>, local: Option<Envelope>,
                    identity: Option<string>)
      returns (out: seq<Fill>)
      requires Valid()
      modifies `confirmUntil, `confirmScope, `asks, `shown, `index, `indexOk
      ensures Valid()
      ensures old(asks) <= asks && |asks| <= |old(asks)| + 1
      ensures url.Blank? || Pick(Matches(index, url), uuid).None? ==>
                out == [] && asks == old(asks) && shown == old(shown)
      ensures !url.Blank? && Pick(Matches(index, url), uuid).Some? ==>
                Confirmed(ReplyFor(Pick(Matches(index, url), uuid).value, login, origin, local, identity),
                          registrable(url), attached, prompt, old(asks), asks, old(shown), shown, out)
      ensures out != [] ==>
                && attached && |out| == 1 && |asks| == |old(asks)| + 1
                && asks[|old(asks)|].scope == registrable(url) && VerdictAt(asks, |old(asks)|) != Refused
      ensures out != [] && out[0].CardFill? && out[0].cvv != "" ==>
                prompt.ok && VerdictAt(asks, |old(asks)|) == Granted && shown == old(shown) + [|old(asks)|]
      ensures out != [] && PlainPorts(index, url) ==>
                exists item :: item in index && Fitting(item, url) && (uuid != "" ==> item.id == uuid) &&
                               Fills(out[0], item.kind)
    {
      hide WindowAfter, VerdictAt, Legal, OwnPrompts, Remembered, Matches, Offered, Enrollable, NewHere, Grants.HostAllowed,
        Grants.CanonicalHost;
      if url.Blank? {
        return [];
      }
      var matches := JsonMatch(url, reload);
      var hit := Select(matches, uuid);
      if hit.None? {
        return [];
      }
      out := FillEntry(hit.value, registrable(url), prompt, login, origin, local, identity);
      if out != [] && HasCode(out[0]) {
        NeverWaived(asks, |asks| - 1);
        PromptDecides(asks, |asks| - 1);
      }
      if PlainPorts(index, url) && out != [] {
        ReplyFills(hit.value, login, origin, local, identity);
        BehindReply(index, url, hit.value, out[0]);
      }
    }

    method FillEntry(hit: MatchEntry, scope: string, prompt: Prompt, login: Option<(string, string)>,
                     origin: Option<Envelope>, local: Option<Envelope>, identity: Option<string>)
      returns (out: seq<Fill>)
      requires Valid()
      modifies `confirmUntil, `confirmScope, `asks, `shown
      ensures Valid()
      ensures old(asks) <= asks && |asks| <= |old(asks)| + 1
      ensures Confirmed(ReplyFor(hit, login, origin, local, identity), scope, attached, prompt,
                        old(asks), asks, old(shown), shown, out)
    {
      hide WindowAfter, VerdictAt, Legal, OwnPrompts, Remembered;
      match hit.kind
      case LoginEntry =>
        var ok := Confirm(scope, true, prompt);
        if !ok || login.None? {
          return [];
        }
        var (id, totp) := login.value;
        return [LoginFill(id, CodeOnly(totp))];
      case CardEntry =>
        var env := origin;
        if env.None? || env.value.number == "" {
          env := local;
        }
        if env.None? || env.value.number == "" {
          return [];
        }
        var ok := Confirm(scope, env.value.cvv == "", prompt);
        if !ok {
          return [];
        }
        if env.value.cvv != "" {
          NeverWaived(asks, |asks| - 1);
          Show(old(asks));
        }
        return [CardFill(env.value.itemId, env.value.number, env.value.cvv)];
      case IdentityEntry =>
        if identity.None? {
          return [];
        }
        var ok := Confirm(scope, true, prompt);
        if !ok {
          return [];
        }
        return [IdentityFill(identity.value)];
      case PasskeyEntry =>
        return [];
    }

    /** Notes that a verification code goes out, under the prompt just granted. */
    ghost method Show(before: seq<Ask>)
      requires Valid() && |asks| == |before| + 1 && OwnPrompts(before, shown)
      requires !asks[|before|].reuse && VerdictAt(asks, |before|) == Granted
      modifies `shown
      ensures Valid() && shown == old(shown) + [|before|]
    {
      shown := shown + [|before|];
    }

    /** Makes and saves a password for a page that has no sign-in yet. */
    method JsonGenerate(url: RawUrl, rules: string, reload: Option<seq<Item>>, needLogin: bool, prompt: Prompt,
                        random: Passgen.Random, created: Option<string>)
      returns (r: Reply)
      requires Valid()
      modifies `confirmUntil, `confirmScope, `asks, `index, `indexOk, `lastScope, `lastUuid, `events
      ensures Valid()
      ensures old(asks) <= asks && |asks| <= |old(asks)| + 1
      ensures r.Made? <==>
                && !url.Blank? && Grants.CanonicalHost(url) != "" && !needLogin
                && NewHere(if !old(indexOk) && reload.Some? then reload.value else old(index), url)
                && attached && VerdictAt(old(asks) + [AskFor(registrable(url), true, prompt)], |old(asks)|) != Refused
                && Passgen.Makes(rules, random) && created.Some?
      ensures r.Failed? ==> events == old(events) + [Nothing]
      ensures !r.Failed? ==>
                && r.Made? && created == Some(r.uuid) && !indexOk
                && events == old(events) + [Created(r.uuid, registrable(url))]
                && |asks| == |old(asks)| + 1 && VerdictAt(asks, |asks| - 1) != Refused
                && asks[|asks| - 1].scope == registrable(url)
                && (var w := Passgen.Wished(Passgen.Parts(rules));
                    w.Ok? && |r.password| == Passgen.Length(w.value) && Passgen.HasAll(r.password, w.value.required))
    {
      hide WindowAfter, VerdictAt, Legal, OwnPrompts, Remembered, Matches, Offered, Enrollable, NewHere, Grants.HostAllowed,
        Grants.CanonicalHost, Passgen.Wished, Passgen.Parts, Passgen.HasAll, Passgen.Length, Passgen.Fault,
        Passgen.Supplied;
      if url.Blank? || Grants.CanonicalHost(url) == "" {
        Unmade();
        return Failed("failed");
      }
      var matches := JsonMatch(url, reload);
      if needLogin {
        Unmade();
        return Failed("need_login");
      }
      NewHereIff(index, url);
      if exists i :: 0 <= i < |matches| && matches[i].kind == LoginEntry {
        Unmade();
        return Failed("choose");
      }
      var ok := Confirm(registrable(url), true, prompt);
      if !ok {
        Unmade();
        return Failed("canceled");
      }
      var secret := Passgen.FromRules(rules, random);
      if secret.Err? || created.None? {
        Unmade();
        return Failed("failed");
      }
      InvalidateIndex();
      RememberCreated(url, created.value);
      return Made(created.value, secret.value);
    }

    /** Saves a sign-in the page already has; never under an earlier prompt. */
    method JsonSave(url: RawUrl, password: string, reload: Option<seq<Item>>, needLogin: bool, prompt: Prompt,
                    created: Option<string>)
      returns (r: Reply)
      requires Valid()
      modifies `confirmUntil, `confirmScope, `asks, `index, `indexOk, `lastScope, `lastUuid, `events
      ensures Valid()
      ensures old(asks) <= asks && |asks| <= |old(asks)| + 1
      ensures r.Saved? <==>
                && !url.Blank? && Grants.CanonicalHost(url) != "" && !needLogin
                && NewHere(if !old(indexOk) && reload.Some? then reload.value else old(index), url)
                && password != "" && attached && prompt.ok && created.Some?
      ensures r.Failed? ==> events == old(events) + [Nothing]
      ensures !r.Failed? ==>
                && r.Saved? && created == Some(r.uuid) && !indexOk
                && events == old(events) + [Created(r.uuid, registrable(url))]
                && |asks| == |old(asks)| + 1 && VerdictAt(asks, |asks| - 1) == Granted
    {
      hide WindowAfter, VerdictAt, Legal, OwnPrompts, Remembered, Matches, Offered, Enrollable, NewHere, Grants.HostAllowed,
        Grants.CanonicalHost;
      if url.Blank? || password == "" || Grants.CanonicalHost(url) == "" {
        Unmade();
        return Failed("failed");
      }
      var matches := JsonMatch(url, reload);
      if needLogin {
        Unmade();
        return Failed("need_login");
      }
      NewHereIff(index, url);
      if exists i :: 0 <= i < |matches| && matches[i].kind == LoginEntry {
        Unmade();
        return Failed("choose");
      }
      var ok := Confirm(registrable(url), false, prompt);
      if !ok {
        Unmade();
        return Failed("canceled");
      }
      NeverWaived(asks, |asks| - 1);
      if created.None? {
        Unmade();
        return Failed("failed");
      }
      InvalidateIndex();
      RememberCreated(url, created.value);
      return Saved(created.value);
    }

    /** Attaches a seed, `sent` being whether the store took it, to the item remembered for this site. */
    method JsonEnrollTotp(url: RawUrl, seedOk: bool, reload: Option<seq<Item>>, needLogin: bool, prompt: Prompt,
                          sent: bool)
      returns (r: Reply)
      requires Valid()
      modifies `confirmUntil, `confirmScope, `asks, `index, `indexOk, `lastScope, `lastUuid, `events
      ensures Valid()
      ensures old(asks) <= asks && |asks| <= |old(asks)| + 1
      ensures r.Failed? ==> events == old(events) + [Nothing]
      ensures !r.Failed? ==>
                && r.Enrolled? && sent && seedOk
                && events == old(events) + [Attached(r.uuid, registrable(url))]
                && |asks| == |old(asks)| + 1 && VerdictAt(asks, |asks| - 1) == Granted
      ensures r.Enrolled? ==> lastUuid == "" && lastScope == ""
      ensures r.Enrolled? <==>
                && seedOk && !url.Blank? && !needLogin && attached && prompt.ok && sent
                && old(lastUuid) != "" && old(lastScope) == registrable(url) != ""
                && exists item :: item in (if !old(indexOk) && reload.Some? then reload.value else old(index)) &&
                                  Enrollable(item, old(lastUuid), url)
    {
      hide WindowAfter, VerdictAt, Legal, OwnPrompts, Remembered, Matches, Offered, Enrollable, NewHere, Grants.HostAllowed,
        Grants.CanonicalHost;
      if !seedOk || url.Blank? {
        Unmade();
        return Failed("failed");
      }
      var uuid := CreatedFor(url);
      if uuid == "" {
        Unmade();
        return Failed("choose");
      }
      EnsureIndex(reload);
      var found := EnrollTarget(index, uuid, url);
      if needLogin {
        Unmade();
        return Failed("need_login");
      }
      if !found {
        Unmade();
        return Failed("choose");
      }
      var ok := Confirm(registrable(url), false, prompt);
      if !ok {
        Unmade();
        return Failed("canceled");
      }
      NeverWaived(asks, |asks| - 1);
      if !sent {
        Unmade();
        return Failed("failed");
      }
      ForgetCreated(uuid, registrable(url));
      InvalidateIndex();
      return Enrolled(uuid);
    }

    ghost method Unmade()
      requires Valid()
      modifies `events
      ensures Valid() && events == old(events) + [Nothing]
    {
      events := events + [Nothing];
      LegalGrows(old(events), Nothing);
    }

    method RememberCreated(url: RawUrl, uuid: string)
      requires Valid()
      modifies `lastScope, `lastUuid, `events
      ensures Valid() && events == old(events) + [Created(uuid, registrable(url))]
    {
      lastScope, lastUuid := registrable(url), uuid;
      events := events + [Created(uuid, registrable(url))];
      LegalGrows(old(events), Created(uuid, registrable(url)));
    }

    method CreatedFor(url: RawUrl) returns (uuid: string)
      ensures uuid != "" ==> uuid == lastUuid && lastScope == registrable(url) && lastScope != ""
      ensures uuid == "" ==> lastUuid == "" || lastScope == "" || lastScope != registrable(url)
    {
      var scope := registrable(url);
      if lastUuid == "" || lastScope == "" || lastScope != scope {
        return "";
      }
      return lastUuid;
    }

    method ForgetCreated(ghost uuid: string, ghost scope: string)
      requires Valid() && (lastScope, lastUuid) == (scope, uuid) && scope != "" && uuid != ""
      modifies `lastScope, `lastUuid, `events
      ensures Valid() && events == old(events) + [Attached(uuid, scope)] && lastUuid == "" && lastScope == ""
    {
      LegalGrows(events, Attached(uuid, scope));
      lastScope, lastUuid := "", "";
      events := events + [Attached(uuid, scope)];
    }
  }

  lemma NeverWaived(asks: seq<Ask>, k: nat)
    requires k < |asks| && !asks[k].reuse
    ensures VerdictAt(asks, k) != Waived
  {
    WaivedIff(asks, k);
  }

  lemma LegalGrows(events: seq<Event>, e: Event)
    requires Legal(events)
    requires e.Attached? ==> Remembered(events) == (e.scope, e.uuid) && e.scope != "" && e.uuid != ""
    ensures Legal(events + [e])
    ensures (events + [e])[..|events|] == events
  {
    var all := events + [e];
    forall k | 0 <= k < |all| && all[k].Attached?
      ensures Remembered(all[..k]) == (all[k].scope, all[k].uuid) && all[k].scope != "" && all[k].uuid != ""
    {
      assert all[..k] == events[..k];
      assert events[..|events|] == events;
    }
  }

  /** The entry meant: the first one named so, or a sign-in that is the only match. */
  function Pick(matches: seq<MatchEntry>, uuid: string): (hit: Option<MatchEntry>)
    ensures hit.Some? ==> hit.value in matches
    ensures hit.Some? && uuid == "" ==> matches == [hit.value] && hit.value.kind.LoginEntry?
    ensures hit.Some? && uuid != "" ==> hit.value.uuid == uuid
  {
    if uuid == "" then
      if |matches| == 1 && matches[0].kind.LoginEntry? then Some(matches[0]) else None
    else FirstNamed(matches, uuid)
  }

  function FirstNamed(matches: seq<MatchEntry>, uuid: string): (hit: Option<MatchEntry>)
    ensures hit.Some? ==> hit.value in matches && hit.value.uuid == uuid
    ensures hit.None? ==> forall i :: 0 <= i < |matches| ==> matches[i].uuid != uuid
  {
    if matches == [] then None
    else if matches[0].uuid == uuid then Some(matches[0])
    else FirstNamed(matches[1..], uuid)
  }

  /** A code is shown as it is; the stand-in that only says there is one, and anything too long for a code, is not. */
  function CodeOnly(totp: string): (code: string)
    ensures |code| <= 8 && code != TOTP_PRESENT && (code == "" || code == totp)
  {
    if totp == TOTP_PRESENT || |totp| > 8 then "" else totp
  }

  function CardOf(origin: Option<Envelope>, local: Option<Envelope>): (env: Option<Envelope>)
    ensures env.Some? ==> env.value.number != "" && (env == origin || env == local)
  {
    if origin.Some? && origin.value.number != "" then origin
    else if local.Some? && local.value.number != "" then local
    else None
  }

  /** What would be sent for an entry; a passkey is never sent this way. */
  function ReplyFor(e: MatchEntry, login: Option<(string, string)>, origin: Option<Envelope>, local: Option<Envelope>,
                    identity: Option<string>): Option<Fill>
  {
    match e.kind
    case LoginEntry => if login.Some? then Some(LoginFill(login.value.0, CodeOnly(login.value.1))) else None
    case CardEntry =>
      (match CardOf(origin, local)
       case Some(env) => Some(CardFill(env.itemId, env.number, env.cvv))
       case None => None)
    case IdentityEntry => if identity.Some? then Some(IdentityFill(identity.value)) else None
    case PasskeyEntry => None
  }

  /** A reply of the item's own kind; a passkey has none. */
  predicate Fills(f: Fill, kind: ItemKind) {
    match f
    case LoginFill(_, _) => kind == ApiKey
    case CardFill(_, _, _) => kind == Card
    case IdentityFill(_) => kind == Identity
  }

  /** What a reply says is what was looked up for it, number, code and all; the first card with a number counts. */
  lemma ReplyFills(e: MatchEntry, login: Option<(string, string)>, origin: Option<Envelope>, local: Option<Envelope>,
                   identity: Option<string>)
    ensures var r := ReplyFor(e, login, origin, local, identity);
            && (r.Some? ==>
                  match r.value
                  case LoginFill(uuid, totp) =>
                    e.kind == LoginEntry && login.Some? && uuid == login.value.0 &&
                    (totp == login.value.1 || (totp == "" && (login.value.1 == "*" || |login.value.1| > 8)))
                  case CardFill(uuid, number, cvv) =>
                    e.kind == CardEntry && number != "" &&
                    (if origin.Some? && origin.value.number != "" then origin == Some(Envelope(uuid, number, cvv))
                     else local == Some(Envelope(uuid, number, cvv)))
                  case IdentityFill(uuid) => e.kind == IdentityEntry && identity == Some(uuid))
            && (e.kind == LoginEntry && login.Some? ==> r.Some?)
            && (e.kind == IdentityEntry && identity.Some? ==> r.Some?)
            && (e.kind == CardEntry && origin.Some? && origin.value.number != "" ==> r.Some?)
            && (e.kind == CardEntry && local.Some? && local.value.number != "" ==> r.Some?)
  {
  }

  lemma BehindReply(index: seq<Item>, url: RawUrl, e: MatchEntry, f: Fill)
    requires PlainPorts(index, url) && e in Matches(index, url)
    requires match e.kind
             case LoginEntry => f.LoginFill?
             case CardEntry => f.CardFill?
             case IdentityEntry => f.IdentityFill?
             case PasskeyEntry => false
    ensures exists item :: item in index && Fitting(item, url) && item.id == e.uuid && Fills(f, item.kind)
  {
    hide OnPage, PlainPorts;
    MatchesIff(index, url, e);
    var item :| item in index && Fitting(item, url) && Describes(e, item);
    assert Fills(f, item.kind);
  }

  predicate HasCode(f: Fill) {
    f.CardFill? && f.cvv != ""
  }

  /**
   A reply goes out exactly when there is one and the human was asked, or an earlier prompt vouched, for this site.
   With a verification code in it the earlier prompt does not count, and the prompt is noted as the code's own.
   */
  ghost predicate Confirmed(reply: Option<Fill>, scope: string, attached: bool, prompt: Prompt, before: seq<Ask>,
                            asks: seq<Ask>, shownBefore: seq<nat>, shown: seq<nat>, out: seq<Fill>)
  {
    if reply.None? || !attached then out == [] && shown == shownBefore
    else
      && asks == before + [AskFor(scope, !HasCode(reply.value), prompt)]
      && out == (if VerdictAt(asks, |before|) == Refused then [] else [reply.value])
      && shown == (if out != [] && HasCode(reply.value) then shownBefore + [|before|] else shownBefore)
  }

  method Select(matches: seq<MatchEntry>, uuid: string) returns (hit: Option<MatchEntry>)
    ensures hit == Pick(matches, uuid)
  {
    if uuid == "" {
      if |matches| != 1 || matches[0].kind != LoginEntry {
        return None;
      }
      return Some(matches[0]);
    }
    for i := 0 to |matches|
      invariant FirstNamed(matches, uuid) == FirstNamed(matches[i..], uuid)
    {
      if matches[i].uuid == uuid {
        return Some(matches[i]);
      }
      assert matches[i..][1..] == matches[i + 1..];
    }
    return None;
  }

  /** The matching entries are those of the items on offer, and no others. */
  lemma {:induction false} MatchesAreOffered(index: seq<Item>, url: RawUrl, e: MatchEntry)
    ensures e in Matches(index, url) <==> exists item :: item in index && Offered(item, url) && EntryFor(item) == e
  {
    hide Offered, EntryFor;
    if index != [] {
      var n := |index| - 1;
      MatchesAreOffered(index[..n], url, e);
      assert index == index[..n] + [index[n]];
    }
  }

  method EnrollTarget(index: seq<Item>, uuid: string, url: RawUrl) returns (found: bool)
    ensures found <==> exists item :: item in index && Enrollable(item, uuid, url)
  {
    for i := 0 to |index|
      invariant forall k :: 0 <= k < i ==> !Enrollable(index[k], uuid, url)
    {
      var item := index[i];
      if item.id != uuid || item.archived || item.hasTotp {
        continue;
      }
      if !item.kind.Fillable() || item.kind.Card? || item.kind.Identity? || item.kind.Passkey? {
        continue;
      }
      if !Grants.HostAllowed(item, url) {
        continue;
      }
      assert Enrollable(item, uuid, url);
      return true;
    }
    return false;
  }

  /** Each code shown has a prompt of its own: put up for it, granted, and not to be reused. */
  ghost predicate OwnPrompts(asks: seq<Ask>, shown: seq<nat>) {
    && (forall i, j :: 0 <= i < j < |shown| ==> shown[i] < shown[j])
    && forall i :: 0 <= i < |shown| ==> shown[i] < |asks| && !asks[shown[i]].reuse && VerdictAt(asks, shown[i]) == Granted
  }

  /** The number of places in the log where an item was made. */
  lemma {:induction false} CreationsAreCounted(events: seq<Event>)
    ensures Creations(events) == |set k | 0 <= k < |events| && events[k].Created?|
  {
    if events != [] {
      var n := |events| - 1;
      CreationsAreCounted(events[..n]);
      var before := set k | 0 <= k < n && events[..n][k].Created?;
      assert (set k | 0 <= k < |events| && events[k].Created?) == before + if events[n].Created? then {n} else {};
    }
  }

  /** And where a seed was attached. */
  lemma {:induction false} AttachmentsAreCounted(events: seq<Event>)
    ensures Attachments(events) == |set k | 0 <= k < |events| && events[k].Attached?|
  {
    if events != [] {
      var n := |events| - 1;
      AttachmentsAreCounted(events[..n]);
      var before := set k | 0 <= k < n && events[..n][k].Attached?;
      assert (set k | 0 <= k < |events| && events[k].Attached?) == before + if events[n].Attached? then {n} else {};
    }
  }

  /** Without an id the only match is meant, if it is a sign-in; with one, the first match of that id. */
  lemma PickMeans(matches: seq<MatchEntry>, uuid: string, e: MatchEntry)
    ensures uuid == "" ==> (Pick(matches, uuid) == Some(e) <==> matches == [e] && e.kind == LoginEntry)
    ensures uuid != "" ==> (Pick(matches, uuid) == Some(e) <==>
              exists i: nat :: i < |matches| && matches[i] == e && First(matches, uuid, i))
  {
    if uuid != "" {
      if Pick(matches, uuid) == Some(e) {
        var i := FirstNamedAt(matches, uuid);
      }
      if i: nat :| i < |matches| && matches[i] == e && First(matches, uuid, i) {
        FirstNamedIs(matches, uuid, i);
      }
    }
  }

  predicate First(matches: seq<MatchEntry>, uuid: string, i: nat) {
    i < |matches| && matches[i].uuid == uuid && forall j: nat :: j < i ==> matches[j].uuid != uuid
  }

  lemma {:induction false} FirstNamedAt(matches: seq<MatchEntry>, uuid: string) returns (i: nat)
    requires FirstNamed(matches, uuid).Some?
    ensures First(matches, uuid, i) && FirstNamed(matches, uuid).value == matches[i]
  {
    if matches[0].uuid == uuid {
      i := 0;
    } else {
      var k := FirstNamedAt(matches[1..], uuid);
      assert forall j: nat :: 0 < j < k + 1 ==> matches[j] == matches[1..][j - 1];
      i := k + 1;
    }
  }

  lemma {:induction false} FirstNamedIs(matches: seq<MatchEntry>, uuid: string, i: nat)
    requires First(matches, uuid, i)
    ensures FirstNamed(matches, uuid) == Some(matches[i])
  {
    if i > 0 {
      assert forall j: nat :: j < i - 1 ==> matches[1..][j] == matches[j + 1];
      FirstNamedIs(matches[1..], uuid, i - 1);
    }
  }

  lemma OneMore(asks: seq<Ask>, a: Ask)
    ensures WindowAfter(asks + [a]) == Confirming.Confirm(WindowAfter(asks), a).0
    ensures VerdictAt(asks + [a], |asks|) == Confirming.Confirm(WindowAfter(asks), a).1
  {
    assert (asks + [a])[..|asks|] == asks;
  }

  lemma OwnPromptsStay(asks: seq<Ask>, a: Ask, shown: seq<nat>)
    requires OwnPrompts(asks, shown)
    ensures OwnPrompts(asks + [a], shown)
  {
    forall i | 0 <= i < |shown|
      ensures VerdictAt(asks + [a], shown[i]) == Granted
    {
      VerdictsStand(asks, a, shown[i]);
    }
  }
}
