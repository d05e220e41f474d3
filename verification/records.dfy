/** The three record shapes of the store (sessions, bankroll ledger entries,
    settings), the input and partial-update shapes the store accepts, and the
    rule that derives a session's profit and hourly rate. */
module Records {
  import opened Optional

  /** Record identity.  The store draws ids from a counter instead of `randomUUID`. */
  type Id = nat

  /** A timestamp in milliseconds, as `Date.getTime` returns it. */
  type Time = int

  /** One recorded poker session.  `profit` and `hourlyRate` are derived by the
      store and never taken from input. */
  datatype Session = Session(
    id: Id,
    location: string,
    gameType: string,
    tableType: string,
    stakes: string,
    date: Time,
    hours: real,
    buyIn: real,
    cashOut: real,
    profit: real,
    hourlyRate: real,
    hands: Option<int>,
    tags: seq<string>,
    notes: Option<string>,
    rating: Option<int>,
    createdAt: Time)

  /** The fields a caller supplies to create a session: everything but the
      id, the two derived fields and the creation time. */
  datatype SessionInput = SessionInput(
    location: string,
    gameType: string,
    tableType: string,
    stakes: string,
    date: Time,
    hours: real,
    buyIn: real,
    cashOut: real,
    hands: Option<int>,
    tags: seq<string>,
    notes: Option<string>,
    rating: Option<int>)

  /** A partial update: `None` leaves a field alone.  The nullable fields can
      also be cleared, so their update is `Some(None)`. */
  datatype SessionPatch = SessionPatch(
    location: Option<string>,
    gameType: Option<string>,
    tableType: Option<string>,
    stakes: Option<string>,
    date: Option<Time>,
    hours: Option<real>,
    buyIn: Option<real>,
    cashOut: Option<real>,
    hands: Option<Option<int>>,
    tags: Option<seq<string>>,
    notes: Option<Option<string>>,
    rating: Option<Option<int>>)

  /** The patch that changes nothing. */
  const EmptyPatch := SessionPatch(None, None, None, None, None, None, None, None, None, None, None, None)

  /** A bankroll ledger entry.  `kind` is the source's `type` column
      ("session", "deposit" or "withdrawal"); `sessionId` is a weak reference
      that may stop resolving once its session is deleted. */
  datatype Transaction = Transaction(
    id: Id,
    kind: string,
    amount: real,
    description: string,
    sessionId: Option<Id>,
    date: Time)

  datatype TransactionInput = TransactionInput(
    kind: string,
    amount: real,
    description: string,
    sessionId: Option<Id>)

  /** A named user setting; keys are unique within the store. */
  datatype Setting = Setting(id: Id, key: string, value: string)

  /** Profit per hour, or 0 for a session of no positive length. */
  function HourlyRateOf(profit: real, hours: real): real {
    if hours > 0.0 then profit / hours else 0.0
  }

  /** The derived-field invariant: profit and hourly rate agree with the
      session's current buy-in, cash-out and hours. */
  predicate Consistent(s: Session) {
    && s.profit == s.cashOut - s.buyIn
    && s.hourlyRate == HourlyRateOf(s.profit, s.hours)
  }

  /** The caller-supplied fields of a stored session. */
  function InputOf(s: Session): SessionInput {
    SessionInput(s.location, s.gameType, s.tableType, s.stakes, s.date, s.hours,
                 s.buyIn, s.cashOut, s.hands, s.tags, s.notes, s.rating)
  }

  /** A stored session made of caller fields plus the store-owned ones. */
  function Assemble(id: Id, input: SessionInput, profit: real, hourlyRate: real, createdAt: Time): (s: Session)
    ensures InputOf(s) == input
    ensures s.id == id && s.createdAt == createdAt
  {
    Session(id, input.location, input.gameType, input.tableType, input.stakes, input.date,
            input.hours, input.buyIn, input.cashOut, profit, hourlyRate,
            input.hands, input.tags, input.notes, input.rating, createdAt)
  }

  /** Object spread `{...fields, ...patch}`: a supplied field wins. */
  function ApplyPatch(fields: SessionInput, patch: SessionPatch): SessionInput {
    SessionInput(
      patch.location.GetOr(fields.location),
      patch.gameType.GetOr(fields.gameType),
      patch.tableType.GetOr(fields.tableType),
      patch.stakes.GetOr(fields.stakes),
      patch.date.GetOr(fields.date),
      patch.hours.GetOr(fields.hours),
      patch.buyIn.GetOr(fields.buyIn),
      patch.cashOut.GetOr(fields.cashOut),
      patch.hands.GetOr(fields.hands),
      patch.tags.GetOr(fields.tags),
      patch.notes.GetOr(fields.notes),
      patch.rating.GetOr(fields.rating))
  }

  /** Inclusive date window; an absent bound is open. */
  predicate InDateRange(s: Session, from: Option<Time>, to: Option<Time>) {
    (from.None? || from.value <= s.date) && (to.None? || s.date <= to.value)
  }

  /** The patch supplies one of the fields the derived values depend on. */
  predicate TouchesMoney(patch: SessionPatch) {
    patch.buyIn.Some? || patch.cashOut.Some? || patch.hours.Some?
  }

  /** A patch of the empty shape leaves every field as it was, and a patch
      that supplies every field replaces all of them. */
  lemma ApplyPatchExtremes(fields: SessionInput, all: SessionInput)
    ensures ApplyPatch(fields, EmptyPatch) == fields
    ensures ApplyPatch(fields, SessionPatch(
              Some(all.location), Some(all.gameType), Some(all.tableType), Some(all.stakes),
              Some(all.date), Some(all.hours), Some(all.buyIn), Some(all.cashOut),
              Some(all.hands), Some(all.tags), Some(all.notes), Some(all.rating))) == all
  {
  }
}
