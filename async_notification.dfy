/**
 * Deferred e-mail notifications about expiring group memberships
 * (grouper/models/async_notification.py): the key that names a (group, member) pair,
 * the query for notifications that are due, and their cancellation.
 */
module AsyncNotifications {
  import opened Wrappers
  import Tables

  /** ILLEGAL_NAME_CHARACTER: a character no group or member name may contain. */
  const IllegalNameCharacter: char := '|'

  const ExpirationToken: string := "EXPIRATION"

  /** `timedelta(days)` in the integer timestamps of this model (seconds). */
  const SecondsPerDay: int := 86400

  /** Python's `s.split(sep)`: the pieces between separators, always at least one. */
  function Split(s: string, sep: char): (parts: seq<string>)
    ensures |parts| >= 1
    ensures forall i :: 0 <= i < |parts| ==> sep !in parts[i]
  {
    if s == [] then [""]
    else
      var rest := Split(s[1..], sep);
      if s[0] == sep then [""] + rest
      else [[s[0]] + rest[0]] + rest[1..]
  }

  /** Python's `sep.join(parts)`. */
  function Join(sep: char, parts: seq<string>): string
  {
    if parts == [] then ""
    else if |parts| == 1 then parts[0]
    else parts[0] + [sep] + Join(sep, parts[1..])
  }

  lemma {:induction false} SplitWithoutSeparator(a: string, sep: char)
    requires sep !in a
    ensures Split(a, sep) == [a]
  {
    if a != [] {
      assert sep !in a[1..];
      SplitWithoutSeparator(a[1..], sep);
      assert a == [a[0]] + a[1..];
    }
  }

  lemma {:induction false} SplitFirstPiece(a: string, sep: char, rest: string)
    requires sep !in a
    ensures Split(a + [sep] + rest, sep) == [a] + Split(rest, sep)
  {
    var s := a + [sep] + rest;
    if a == [] {
      assert s[0] == sep && s[1..] == rest;
    } else {
      assert s[0] == a[0] && s[1..] == a[1..] + [sep] + rest;
      assert sep !in a[1..];
      SplitFirstPiece(a[1..], sep, rest);
      assert a == [a[0]] + a[1..];
    }
  }

  /** Splitting a join of separator-free pieces gives the pieces back. */
  lemma {:induction false} SplitJoin(parts: seq<string>, sep: char)
    requires |parts| >= 1
    requires forall i :: 0 <= i < |parts| ==> sep !in parts[i]
    ensures Split(Join(sep, parts), sep) == parts
  {
    if |parts| == 1 {
      SplitWithoutSeparator(parts[0], sep);
    } else {
      SplitJoin(parts[1..], sep);
      SplitFirstPiece(parts[0], sep, Join(sep, parts[1..]));
      assert parts == [parts[0]] + parts[1..];
    }
  }

  /** Joining the pieces of a split gives the string back. */
  lemma {:induction false} JoinSplit(s: string, sep: char)
    ensures Join(sep, Split(s, sep)) == s
  {
    if s != [] {
      JoinSplit(s[1..], sep);
      var rest := Split(s[1..], sep);
      assert s == [s[0]] + s[1..];
      if s[0] == sep {
        assert ([""] + rest)[1..] == rest;
      } else {
        var parts := [[s[0]] + rest[0]] + rest[1..];
        if |rest| == 1 {
          assert Join(sep, parts) == [s[0]] + rest[0];
        } else {
          assert parts[1..] == rest[1..];
          assert Join(sep, rest) == rest[0] + [sep] + Join(sep, rest[1..]);
        }
      }
    }
  }

  /** `_expiration_key`. */
  function ExpirationKey(groupName: string, memberName: string): string
  {
    Join(IllegalNameCharacter, [ExpirationToken, groupName, memberName])
  }

  /** Unpacking into three names raises ValueError; a wrong first piece fails the assert. */
  datatype KeyError = WrongNumberOfParts | NotAnExpiration

  /** `_expiration_key_data`: a key decodes only when it is the key of some (group, member). */
  function ExpirationKeyData(key: string): (r: Result<(string, string), KeyError>)
    ensures r.Ok? <==>
      |Split(key, IllegalNameCharacter)| == 3 && Split(key, IllegalNameCharacter)[0] == ExpirationToken
    ensures r.Ok? ==>
      IllegalNameCharacter !in r.value.0 && IllegalNameCharacter !in r.value.1 &&
      key == ExpirationKey(r.value.0, r.value.1)
  {
    var parts := Split(key, IllegalNameCharacter);
    if |parts| != 3 then Err(WrongNumberOfParts)
    else if parts[0] != ExpirationToken then Err(NotAnExpiration)
    else
      JoinSplit(key, IllegalNameCharacter);
      assert parts == [parts[0], parts[1], parts[2]];
      Ok((parts[1], parts[2]))
  }

  /** Decoding an encoded key gives the names back exactly when neither holds the separator. */
  lemma ExpirationKeyRoundTrip(groupName: string, memberName: string)
    ensures ExpirationKeyData(ExpirationKey(groupName, memberName)) == Ok((groupName, memberName)) <==>
      IllegalNameCharacter !in groupName && IllegalNameCharacter !in memberName
  {
    if IllegalNameCharacter !in groupName && IllegalNameCharacter !in memberName {
      var parts := [ExpirationToken, groupName, memberName];
      assert IllegalNameCharacter !in ExpirationToken;
      SplitJoin(parts, IllegalNameCharacter);
    }
  }

  /** `add_expiration`'s `send_after`: the notice period before the expiration. */
  function SendAfter(expiration: int, noticeDays: int): (t: int)
    ensures t + noticeDays * SecondsPerDay == expiration
    ensures noticeDays >= 0 ==> t <= expiration
  {
    expiration - noticeDays * SecondsPerDay
  }

  /** One row of the async_notifications table; `key` is nullable. */
  datatype AsyncNotification = AsyncNotification(
    key: Option<string>, email: string, subject: string, body: string, sendAfter: int, sent: bool)

  /** The filter of `_get_unsent_expirations`: an expiration key, unsent, and due before `now`. */
  predicate DueExpiration(n: AsyncNotification, now: int)
  {
    n.key.Some? && ExpirationToken <= n.key.value && !n.sent && n.sendAfter < now
  }

  function DueExpirations(rows: seq<AsyncNotification>, now: int): (r: seq<AsyncNotification>)
    ensures forall n :: n in r <==> n in rows && DueExpiration(n, now)
    ensures forall i :: 0 <= i < |r| ==> DueExpiration(r[i], now)
    ensures forall n :: multiset(r)[n] == if DueExpiration(n, now) then multiset(rows)[n] else 0
  {
    if rows == [] then [] else
      var k := |rows| - 1;
      assert rows == rows[..k] + [rows[k]];
      DueExpirations(rows[..k], now) + (if DueExpiration(rows[k], now) then [rows[k]] else [])
  }

  /**
   * The filter of `cancel_expiration`: the key, unsent, and one of the recipients when any are
   * given. An empty recipient list builds an `or_()` of no terms, which SQLAlchemy leaves out
   * of the WHERE clause, so it restricts nothing.
   */
  predicate Cancels(n: AsyncNotification, key: string, recipients: Option<seq<string>>)
  {
    n.key == Some(key) && !n.sent && (recipients.None? || recipients.value == [] || n.email in recipients.value)
  }

  /** The rows `cancel_expiration` leaves, in table order. */
  function Remaining(rows: seq<AsyncNotification>, key: string, recipients: Option<seq<string>>): (r: seq<AsyncNotification>)
    ensures forall n :: n in r <==> n in rows && !Cancels(n, key, recipients)
    ensures |r| <= |rows|
    ensures forall n :: multiset(r)[n] == if Cancels(n, key, recipients) then 0 else multiset(rows)[n]
  {
    var keep := (n: AsyncNotification) => !Cancels(n, key, recipients);
    forall n ensures multiset(Tables.Filter(rows, keep))[n] == if Cancels(n, key, recipients) then 0 else multiset(rows)[n] {
      Tables.FilterCount(rows, keep, n);
    }
    Tables.Filter(rows, keep)
  }

  /** Cancelling twice removes nothing more than cancelling once. */
  lemma CancelIsIdempotent(rows: seq<AsyncNotification>, key: string, recipients: Option<seq<string>>)
    ensures Remaining(Remaining(rows, key, recipients), key, recipients) == Remaining(rows, key, recipients)
  {
    var keep := (n: AsyncNotification) => !Cancels(n, key, recipients);
    Tables.FilterFilter(rows, keep, keep, keep);
  }

  /** The async_notifications table. */
  class NotificationQueue {
    var rows: seq<AsyncNotification>

    constructor ()
      ensures rows == []
    {
      rows := [];
    }

    /**
     * `_get_unsent_expirations`: (group, member, email) for every due expiration row, in
     * table order; a due row whose key does not decode raises.
     */
    method GetUnsentExpirations(now: int) returns (r: Result<seq<(string, string, string)>, KeyError>)
      ensures r.Ok? <==> forall n :: n in rows && DueExpiration(n, now) ==> ExpirationKeyData(n.key.value).Ok?
      ensures r.Ok? ==>
        var due := DueExpirations(rows, now);
        |r.value| == |due| &&
        forall i :: 0 <= i < |due| ==>
          ExpirationKeyData(due[i].key.value) == Ok((r.value[i].0, r.value[i].1)) && r.value[i].2 == due[i].email
      ensures r.Err? ==> exists n :: n in rows && DueExpiration(n, now) && ExpirationKeyData(n.key.value) == Err(r.error)
    {
      var emails := DueExpirations(rows, now);
      var tuples: seq<(string, string, string)> := [];
      var i := 0;
      while i < |emails|
        invariant 0 <= i <= |emails|
        invariant |tuples| == i
        invariant forall j :: 0 <= j < i ==>
          ExpirationKeyData(emails[j].key.value) == Ok((tuples[j].0, tuples[j].1)) && tuples[j].2 == emails[j].email
      {
        var names := ExpirationKeyData(emails[i].key.value);
        if names.Err? {
          assert emails[i] in emails;
          return Err(names.error);
        }
        tuples := tuples + [(names.value.0, names.value.1, emails[i].email)];
        i := i + 1;
      }
      forall n | n in rows && DueExpiration(n, now) ensures ExpirationKeyData(n.key.value).Ok? {
        assert n in emails;
      }
      return Ok(tuples);
    }

    /**
     * `add_expiration`: queues, for each recipient, an unsent warning keyed by the
     * (group, member) pair and due `noticeDays` before the expiration.
     */
    method AddExpiration(expiration: int, groupName: string, memberName: string,
                         recipients: seq<string>, noticeDays: int, body: string)
      modifies this
      ensures |rows| == |old(rows)| + |recipients| && rows[..|old(rows)|] == old(rows)
      ensures forall i :: 0 <= i < |recipients| ==>
        rows[|old(rows)| + i] == AsyncNotification(
          Some(ExpirationKey(groupName, memberName)), recipients[i],
          "expiration warning for membership in group '" + groupName + "'", body,
          SendAfter(expiration, noticeDays), false)
    {
      var key := ExpirationKey(groupName, memberName);
      var sendAfter := SendAfter(expiration, noticeDays);
      var subject := "expiration warning for membership in group '" + groupName + "'";
      var i := 0;
      while i < |recipients|
        invariant 0 <= i <= |recipients|
        invariant |rows| == |old(rows)| + i && rows[..|old(rows)|] == old(rows)
        invariant forall j :: 0 <= j < i ==>
          rows[|old(rows)| + j] == AsyncNotification(Some(key), recipients[j], subject, body, sendAfter, false)
      {
        rows := rows + [AsyncNotification(Some(key), recipients[i], subject, body, sendAfter, false)];
        i := i + 1;
      }
    }

    /**
     * `cancel_expiration`: deletes the unsent rows for the (group, member) key, restricted to
     * the given recipients when the list is non-empty; sent rows and other keys are untouched.
     */
    method CancelExpiration(groupName: string, memberName: string, recipients: Option<seq<string>>)
      modifies this
      ensures rows == Remaining(old(rows), ExpirationKey(groupName, memberName), recipients)
      ensures forall n :: n in old(rows) && (n.sent || n.key != Some(ExpirationKey(groupName, memberName))) ==> n in rows
      ensures recipients.None? || recipients.value == [] ==>
        forall n :: n in rows ==> n.sent || n.key != Some(ExpirationKey(groupName, memberName))
      ensures recipients.Some? && recipients.value != [] ==>
        forall n :: n in old(rows) && n.email !in recipients.value ==> n in rows
    {
      var key := ExpirationKey(groupName, memberName);
      var keep := (n: AsyncNotification) => !Cancels(n, key, recipients);
      var all := rows;
      var kept: seq<AsyncNotification> := [];
      var i := 0;
      while i < |all|
        invariant 0 <= i <= |all|
        invariant kept == Tables.Filter(all[..i], keep)
      {
        assert all[..i + 1] == all[..i] + [all[i]];
        Tables.FilterSnoc(all[..i], all[i], keep);
        if !Cancels(all[i], key, recipients) {
          kept := kept + [all[i]];
        }
        i := i + 1;
      }
      assert all[..i] == all;
      rows := kept;
    }
  }
}
