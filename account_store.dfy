/**
 * The Account Store Gateway's two writes, `persistAccountTokens` and
 * `markAccountBanned`, over an in-memory table of account rows keyed by id.
 *
 * Each write is an UPDATE on the in-memory database followed by saving the
 * database to disk. Either step can throw: when the UPDATE throws nothing
 * has changed; when the save throws, the in-memory row has already been
 * updated. `WriteFault` says which, if any, happens.
 */
module AccountStore {
  import opened Wrappers
  import opened Text

  /** The columns of an account row that the sweeper writes, and the email it reports. */
  datatype Row = Row(
    email: string,
    token: string,
    refreshToken: Option<string>,
    isOpen: bool,
    isBanned: bool,
    banProcessed: bool,
    updatedAt: string)

  /** What the refresh client hands over: an access token and a refresh token (either may be empty). */
  datatype Tokens = Tokens(accessToken: string, refreshToken: string)

  /** What `persistAccountTokens` returns when it wrote. */
  datatype StoredTokens = StoredTokens(accessToken: string, refreshToken: Option<string>)

  datatype WriteFault =
    | Durable                  // the UPDATE and the save both succeed
    | RunFails(message: string)   // the UPDATE throws; nothing changes
    | SaveFails(message: string)  // the UPDATE is applied in memory, then the save throws

  /** One UPDATE statement that took effect. */
  datatype Write =
    | BanWrite(id: int)
    | TokenWrite(id: int, accessToken: string, refreshToken: Option<string>)

  /** The refresh token column after a rotation: trimmed, and NULL when that leaves nothing. */
  function NextRefreshToken(tokens: Tokens): (r: Option<string>)
    ensures r.None? <==> Trim(tokens.refreshToken) == []
    ensures r.Some? ==> r.value == Trim(tokens.refreshToken) && r.value != []
  {
    var next := if tokens.refreshToken != [] then Trim(tokens.refreshToken) else [];
    if next == [] then None else Some(next)
  }

  /** `is_open = 0, is_banned = 1, ban_processed = 0, updated_at = now`. */
  function BannedRow(row: Row, stamp: string): (r: Row)
    ensures r.isBanned && !r.isOpen && !r.banProcessed && r.updatedAt == stamp
    ensures r.email == row.email && r.token == row.token && r.refreshToken == row.refreshToken
  {
    row.(isOpen := false, isBanned := true, banProcessed := false, updatedAt := stamp)
  }

  /** `token = ?, refresh_token = ?, updated_at = now`. */
  function TokenRow(row: Row, accessToken: string, refreshToken: Option<string>, stamp: string): (r: Row)
    ensures r.token == accessToken && r.refreshToken == refreshToken && r.updatedAt == stamp
    ensures r.email == row.email && r.isOpen == row.isOpen && r.isBanned == row.isBanned
            && r.banProcessed == row.banProcessed
  {
    row.(token := accessToken, refreshToken := refreshToken, updatedAt := stamp)
  }

  /** An UPDATE ... WHERE id = ? on the table: the row with that id, if there is one, changes; no other row does. */
  function ApplyWrite(rows: map<int, Row>, w: Write, stamp: string): (r: map<int, Row>)
    ensures r.Keys == rows.Keys
    ensures forall id :: id in rows && id != w.id ==> r[id] == rows[id]
    ensures w.id in rows && w.BanWrite? ==> r[w.id] == BannedRow(rows[w.id], stamp)
    ensures w.id in rows && w.TokenWrite? ==> r[w.id] == TokenRow(rows[w.id], w.accessToken, w.refreshToken, stamp)
  {
    if w.id !in rows then rows
    else match w
      case BanWrite(id) => rows[id := BannedRow(rows[id], stamp)]
      case TokenWrite(id, a, t) => rows[id := TokenRow(rows[id], a, t, stamp)]
  }

  function ApplyWrites(rows: map<int, Row>, ws: seq<Write>, stamp: string): (r: map<int, Row>)
    ensures r.Keys == rows.Keys
    decreases |ws|
  {
    if ws == [] then rows else ApplyWrites(ApplyWrite(rows, ws[0], stamp), ws[1..], stamp)
  }

  /** Applying two batches of writes one after the other is applying their concatenation. */
  lemma {:induction false} ApplyWritesAppend(rows: map<int, Row>, first: seq<Write>, second: seq<Write>, stamp: string)
    ensures ApplyWrites(rows, first + second, stamp) == ApplyWrites(ApplyWrites(rows, first, stamp), second, stamp)
    decreases |first|
  {
    if first == [] {
      assert first + second == second;
    } else {
      assert (first + second)[1..] == first[1..] + second;
      ApplyWritesAppend(ApplyWrite(rows, first[0], stamp), first[1..], second, stamp);
    }
  }

  /** The writes that reach the table when an UPDATE meets `fault`. */
  function Effect(w: Write, fault: WriteFault): (ws: seq<Write>)
    ensures fault.RunFails? <==> ws == []
  {
    if fault.RunFails? then [] else [w]
  }

  /** The error the write reports, if any. */
  function FaultError(fault: WriteFault): (e: Option<string>)
    ensures e.None? <==> fault.Durable?
  {
    match fault
    case Durable => None
    case RunFails(m) => Some(m)
    case SaveFails(m) => Some(m)
  }

  /** Marking an account banned twice leaves it as marking it once (with the later time stamp). */
  lemma MarkBannedIdempotent(rows: map<int, Row>, id: int, s1: string, s2: string)
    ensures ApplyWrite(ApplyWrite(rows, BanWrite(id), s1), BanWrite(id), s2) == ApplyWrite(rows, BanWrite(id), s2)
  {
  }

  /** Writes to two different accounts do not interfere: their order does not matter. */
  lemma WritesToDistinctIdsCommute(rows: map<int, Row>, a: Write, b: Write, stamp: string)
    requires a.id != b.id
    ensures ApplyWrite(ApplyWrite(rows, a, stamp), b, stamp) == ApplyWrite(ApplyWrite(rows, b, stamp), a, stamp)
  {
  }

  /** The account table, which the sweeper's writes update in place. */
  class Store {
    var rows: map<int, Row>

    constructor (initial: map<int, Row>)
      ensures rows == initial
    {
      rows := initial;
    }

    /** markAccountBanned. */
    method MarkBanned(id: int, stamp: string, fault: WriteFault) returns (error: Option<string>)
      modifies this
      ensures rows == ApplyWrites(old(rows), Effect(BanWrite(id), fault), stamp)
      ensures error == FaultError(fault)
    {
      if fault.RunFails? {
        return Some(fault.message);
      }
      rows := ApplyWrite(rows, BanWrite(id), stamp);
      error := FaultError(fault);
    }

    /**
     * persistAccountTokens: nothing is written without an access token;
     * otherwise both token columns are overwritten, the refresh token
     * trimmed and stored as NULL when empty.
     */
    method PersistTokens(id: int, tokens: Tokens, stamp: string, fault: WriteFault)
      returns (stored: Option<StoredTokens>, error: Option<string>)
      modifies this
      ensures tokens.accessToken == [] ==> rows == old(rows) && stored.None? && error.None?
      ensures tokens.accessToken != [] ==>
                && rows == ApplyWrites(old(rows), Effect(TokenWrite(id, tokens.accessToken, NextRefreshToken(tokens)), fault), stamp)
                && error == FaultError(fault)
                && (error.None? ==> stored == Some(StoredTokens(tokens.accessToken, NextRefreshToken(tokens))))
    {
      stored, error := None, None;
      if tokens.accessToken == [] {
        return;
      }
      var next := NextRefreshToken(tokens);
      if fault.RunFails? {
        error := Some(fault.message);
        return;
      }
      rows := ApplyWrite(rows, TokenWrite(id, tokens.accessToken, next), stamp);
      if fault.SaveFails? {
        error := Some(fault.message);
        return;
      }
      stored := Some(StoredTokens(tokens.accessToken, next));
    }
  }
}
