/**
 * Which screen the inbox component renders for a snapshot of the hook's state and its own
 * countdown state, and which of the mutually exclusive message-panel states it shows.
 */
module Render {
  import opened Wrappers
  import opened Domains
  import opened Provisioning
  import opened Countdown
  import opened Display

  datatype Account = Account(id: string, address: string)

  datatype Sender = Sender(address: Option<string>, name: Option<string>)

  datatype Message = Message(id: Option<string>, from: Option<Sender>, subject: Option<string>,
                             intro: Option<string>, createdAt: Option<string>, seen: bool)

  /** The `messages` value as delivered: an array, or some other value whose `typeof` is `typeName`. */
  datatype Payload = Items(items: seq<Message>) | NonArray(typeName: string)

  /** The hook's values the component reads while rendering. */
  datatype Snapshot = Snapshot(
    account: Option<Account>,
    messages: Payload,
    isAuthenticated: bool,
    isExpired: bool,
    isDeleting: bool,
    messagesLoading: bool,
    isMessagesError: bool,
    messagesError: Option<string>,
    isCreating: bool,
    domains: Option<seq<Domain>>,
    domainsLoading: bool,
    domainsError: bool,
    domainsErrorMessage: Option<string>)

  /** The header while there is no inbox. */
  datatype Heading = CreatingInbox | InitializingInbox | NoDomainsAvailable

  /** The body while there is no inbox: a spinner (with its "setting up" or "preparing" line) or a refusal. */
  datatype Notice = Preparing(creating: bool) | NoEligibleDomains

  /** When a message row says it was received. */
  datatype RowTime = Relative(createdAt: string) | UnknownTime

  datatype MessageRow = MessageRow(key: string, id: Option<string>, sender: string, subject: string,
                                   intro: Option<string>, time: RowTime, unread: bool)

  datatype MessagePanel =
    | Fetching
    | LoadFailed(detail: string)
    | FormatError(typeName: string)
    | NoMessages
    | MessageList(rows: seq<MessageRow>)

  datatype Page =
    | LoadingDomains
    | DomainError(detail: string)
    | AwaitingInbox(heading: Heading, notice: Notice)
    | InboxView(address: string, badge: Option<Badge>, deletedNotice: bool, expiredNotice: bool,
                canRefresh: bool, canDelete: bool, count: Option<nat>, panel: MessagePanel)

  /** `message.from?.name || message.from?.address || 'Unknown sender'`. */
  function SenderLabel(from: Option<Sender>): (who: string)
    ensures who != ""
    ensures from.Some? && OrElse(from.value.name, "") != "" ==> who == from.value.name.value
    ensures from.Some? && OrElse(from.value.name, "") == "" && OrElse(from.value.address, "") != "" ==>
              who == from.value.address.value
    ensures from.None? || (OrElse(from.value.name, "") == "" && OrElse(from.value.address, "") == "") ==>
              who == "Unknown sender"
  {
    if from.None? then "Unknown sender"
    else if OrElse(from.value.name, "") != "" then from.value.name.value
    else OrElse(from.value.address, "Unknown sender")
  }

  /** One row of the list: `index` is the row's position, used for the key of a message without an id. */
  function RowOf(m: Message, index: nat): (row: MessageRow)
    ensures row.unread <==> !m.seen
    ensures row.time == UnknownTime <==> OrElse(m.createdAt, "") == ""
    ensures OrElse(m.id, "") != "" ==> row.key == m.id.value
    ensures OrElse(m.id, "") == "" ==> row.key == "message-" + Decimal(index)
    ensures row.key != "" && row.id == m.id
    ensures row.sender == SenderLabel(m.from)
    ensures OrElse(m.subject, "") != "" ==> row.subject == m.subject.value
    ensures OrElse(m.subject, "") == "" ==> row.subject == "(No subject)"
    ensures row.intro.Some? <==> OrElse(m.intro, "") != ""
    ensures row.intro.Some? ==> row.intro == m.intro
    ensures row.time.Relative? ==> Some(row.time.createdAt) == m.createdAt
  {
    MessageRow(
      key := OrElse(m.id, "message-" + Decimal(index)),
      id := m.id,
      sender := SenderLabel(m.from),
      subject := OrElse(m.subject, "(No subject)"),
      intro := if OrElse(m.intro, "") != "" then m.intro else None,
      time := if OrElse(m.createdAt, "") != "" then Relative(m.createdAt.value) else UnknownTime,
      unread := !m.seen)
  }

  /** Messages without an id get keys that differ from row to row. */
  lemma FallbackKeysDistinct(i: nat, j: nat)
    requires i != j
    ensures "message-" + Decimal(i) != "message-" + Decimal(j)
  {
    if "message-" + Decimal(i) == "message-" + Decimal(j) {
      var p := "message-";
      assert Decimal(i) == ("message-" + Decimal(i))[|p|..];
      assert Decimal(j) == ("message-" + Decimal(j))[|p|..];
      DecimalRoundTrip(i);
      DecimalRoundTrip(j);
    }
  }

  /** `messages.map((message, index) => ...)`: one row per message, in the delivered order. */
  function Rows(ms: seq<Message>): (rows: seq<MessageRow>)
  {
    seq(|ms|, i requires 0 <= i < |ms| => RowOf(ms[i], i))
  }

  /** The message panel: loading, then error, then a non-array payload, then empty, then the list. */
  function PanelOf(loading: bool, isError: bool, error: Option<string>, messages: Payload): (p: MessagePanel)
  {
    if loading then Fetching
    else if isError then LoadFailed(OrElse(error, "Unknown error occurred"))
    else if !messages.Items? then FormatError(messages.typeName)
    else if |messages.items| == 0 then NoMessages
    else MessageList(Rows(messages.items))
  }

  /** The `(n)` after the "Messages" title: shown for a non-empty array only. */
  function CountLabel(messages: Payload): (n: Option<nat>)
    ensures n.Some? <==> messages.Items? && |messages.items| > 0
    ensures n.Some? ==> n.value == |messages.items|
  {
    if messages.Items? && |messages.items| > 0 then Some(|messages.items|) else None
  }

  /** `domains?.filter(d => d.isActive && !d.isPrivate) || []`, tested for non-emptiness. */
  function HasActiveDomains(domains: Option<seq<Domain>>): (b: bool)
    ensures b <==> domains.Some? && HasEligible(domains.value)
  {
    |EligibleDomains(if domains.Some? then domains.value else [])| > 0
  }

  function HeadingFor(isCreating: bool, hasActiveDomains: bool): Heading {
    if isCreating then CreatingInbox
    else if hasActiveDomains then InitializingInbox
    else NoDomainsAvailable
  }

  /** The screen for a hook snapshot and the component's countdown state. */
  function PageOf(s: Snapshot, t: TimerState): (page: Page)
  {
    if s.domainsLoading then LoadingDomains
    else if s.domainsError then
      DomainError(OrElse(s.domainsErrorMessage, "Unable to fetch available domains"))
    else if !s.isAuthenticated || s.account.None? then
      var hasActive := HasActiveDomains(s.domains);
      AwaitingInbox(HeadingFor(s.isCreating, hasActive), if hasActive then Preparing(s.isCreating) else NoEligibleDomains)
    else
      InboxView(
        address := s.account.value.address,
        badge := BadgeFor(s.isAuthenticated, s.isExpired, t),
        deletedNotice := t.expired,
        expiredNotice := s.isExpired,
        canRefresh := !s.messagesLoading,
        canDelete := !s.isDeleting,
        count := CountLabel(s.messages),
        panel := PanelOf(s.messagesLoading, s.isMessagesError, s.messagesError, s.messages))
  }

  /**
   * The inbox view shows the account's address, the server-expiry notice exactly when expired,
   * the "deleted" notice exactly when latched, refresh disabled while loading and delete disabled
   * while deleting; the error texts fall back to fixed messages when the hook gives none.
   */
  lemma InboxViewFields(s: Snapshot, t: TimerState)
    ensures var page := PageOf(s, t);
      (page.InboxView? ==>
         page.address == s.account.value.address &&
         (page.expiredNotice <==> s.isExpired) && (page.deletedNotice <==> t.expired) &&
         (page.canRefresh <==> !s.messagesLoading) && (page.canDelete <==> !s.isDeleting) &&
         page.count == CountLabel(s.messages)) &&
      (page.DomainError? && OrElse(s.domainsErrorMessage, "") == "" ==>
         page.detail == "Unable to fetch available domains") &&
      (page.InboxView? && page.panel.LoadFailed? && OrElse(s.messagesError, "") == "" ==>
         page.panel.detail == "Unknown error occurred")
  {
  }

  /** The message panel's states in order of precedence; exactly one is chosen. */
  lemma PanelPrecedence(loading: bool, isError: bool, error: Option<string>, messages: Payload)
    ensures var p := PanelOf(loading, isError, error, messages);
      (p.Fetching? <==> loading) &&
      (p.LoadFailed? <==> !loading && isError) &&
      (p.FormatError? <==> !loading && !isError && messages.NonArray?) &&
      (p.NoMessages? <==> !loading && !isError && messages == Items([])) &&
      (p.MessageList? <==> !loading && !isError && messages.Items? && |messages.items| > 0)
  {
  }

  /** A payload that is not an array never reaches the empty or the list state. */
  lemma NonArrayNeverListed(loading: bool, isError: bool, error: Option<string>, typeName: string)
    ensures var p := PanelOf(loading, isError, error, NonArray(typeName));
      !p.NoMessages? && !p.MessageList? && (!loading && !isError ==> p == FormatError(typeName))
  {
  }

  /** The list shows every delivered message, in order, each row derived from its own message. */
  lemma ListShowsEveryMessage(loading: bool, isError: bool, error: Option<string>, ms: seq<Message>)
    requires !loading && !isError && |ms| > 0
    ensures var p := PanelOf(loading, isError, error, Items(ms));
      p.MessageList? && |p.rows| == |ms| &&
      forall i :: 0 <= i < |ms| ==> p.rows[i] == RowOf(ms[i], i) && (p.rows[i].unread <==> !ms[i].seen)
  {
  }

  /** While the domains load nothing else about the snapshot matters. */
  lemma LoadingDomainsBeatsAll(a: Snapshot, b: Snapshot, t: TimerState, u: TimerState)
    requires a.domainsLoading && b.domainsLoading
    ensures PageOf(a, t) == PageOf(b, u) == LoadingDomains
  {
  }

  /** A domain error beats every state but loading; only its message is shown. */
  lemma DomainErrorBeatsSession(a: Snapshot, b: Snapshot, t: TimerState, u: TimerState)
    requires !a.domainsLoading && a.domainsError && !b.domainsLoading && b.domainsError
    requires a.domainsErrorMessage == b.domainsErrorMessage
    ensures PageOf(a, t) == PageOf(b, u) && PageOf(a, t).DomainError?
  {
  }

  /** The page's levels in order of precedence: loading, domain error, no inbox, the inbox. */
  lemma PagePrecedence(s: Snapshot, t: TimerState)
    ensures var page := PageOf(s, t);
      (page.LoadingDomains? <==> s.domainsLoading) &&
      (page.DomainError? <==> !s.domainsLoading && s.domainsError) &&
      (page.AwaitingInbox? <==> !s.domainsLoading && !s.domainsError && (!s.isAuthenticated || s.account.None?)) &&
      (page.InboxView? <==> !s.domainsLoading && !s.domainsError && s.isAuthenticated && s.account.Some?)
  {
  }

  /** The heading without an inbox: creating, else initializing if an eligible domain exists, else none available. */
  lemma HeadingChoice(s: Snapshot, t: TimerState)
    requires !s.domainsLoading && !s.domainsError && (!s.isAuthenticated || s.account.None?)
    ensures var page := PageOf(s, t);
      page.AwaitingInbox? &&
      (page.heading == CreatingInbox <==> s.isCreating) &&
      (page.heading == InitializingInbox <==> !s.isCreating && s.domains.Some? && HasEligible(s.domains.value)) &&
      (page.heading == NoDomainsAvailable <==> !s.isCreating && !(s.domains.Some? && HasEligible(s.domains.value))) &&
      (page.notice == NoEligibleDomains <==> !(s.domains.Some? && HasEligible(s.domains.value)))
  {
  }

  /**
   * Whenever the auto-create effect requests an inbox, the page says "Initializing Inbox"; and an
   * unauthenticated "Initializing Inbox" page always comes with a request.
   */
  lemma InitializingMeansProvisioning(s: Snapshot, t: TimerState)
    ensures ShouldAutoCreate(s.isAuthenticated, s.isCreating, s.domainsLoading, s.domainsError, s.domains)
            ==> PageOf(s, t) == AwaitingInbox(InitializingInbox, Preparing(false))
    ensures PageOf(s, t).AwaitingInbox? && PageOf(s, t).heading == InitializingInbox && !s.isAuthenticated
            ==> ShouldAutoCreate(s.isAuthenticated, s.isCreating, s.domainsLoading, s.domainsError, s.domains)
  {
  }

  /** In the inbox view the badge is shown exactly when the countdown is visible, and then reads back as the timer. */
  lemma InboxBadge(s: Snapshot, t: TimerState)
    requires PageOf(s, t).InboxView?
    ensures var page := PageOf(s, t);
      (page.badge.Some? <==> !s.isExpired && !t.expired && t.timer > 0) &&
      (page.badge.Some? ==> ParseCountdown(page.badge.value.text) == Some(t.timer as nat)) &&
      (page.badge.Some? ==> page.badge.value.text == FormatCountdown(t.timer)) &&
      (page.deletedNotice ==> page.badge.None?)
  {
  }
}
