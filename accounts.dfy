/** The account service: salt generation from a cryptographic random source
    by rejection sampling, account creation with a salted password hash,
    credential lookup and disabling. The random source is a finite sequence
    of 32-bit words and the hash is a function given by the caller. */
module Accounts {
  import opened Results
  import opened Store

  const SaltAlphabet: string := "ABCDEFGHIJKLMNOPQRSTUVWXYZabcdefghijklmnopqrstuvwxyz-01234567890"
  const SaltLength: nat := 15

  const TwoTo32: int := 0x1_0000_0000

  /** A word read from the random source. */
  type UInt32 = x: int | 0 <= x < 0x1_0000_0000

  /** An unchecked conversion to a 32-bit signed integer: the value congruent
      to `x` modulo 2^32 in the signed range. */
  function Wrap32(x: int): (r: int)
    ensures IsInt32(r) && (r - x) % TwoTo32 == 0
    ensures IsInt32(x) ==> r == x
  {
    var m := x % TwoTo32;
    if m >= 0x8000_0000 then m - TwoTo32 else m
  }

  /** Draws below this bound are accepted: the largest multiple of `|diff|`
      that is at most 2^32 (`max - max % diff` in the source). */
  function AcceptLimit(diff: int): (limit: int)
    requires diff != 0
  {
    0x1_0000_0000 - 0x1_0000_0000 % diff
  }

  /** The accepted range is a whole number of periods of `diff`, so every
      residue modulo `diff` is accepted equally often, and less than one
      period of the 2^32 words is rejected. */
  lemma AcceptLimitIsFair(diff: int)
    requires diff != 0
    ensures AcceptLimit(diff) == diff * (TwoTo32 / diff)
    ensures TwoTo32 - (if diff < 0 then -diff else diff) < AcceptLimit(diff) <= TwoTo32
  {
  }

  /** Where `Next` leaves the random stream when it accepts a word: the
      position just past the first word at or after `from` that lies below
      `limit`, or `None` when the stream ends first. */
  function FirstAccepted(draws: seq<UInt32>, from: nat, limit: int): (r: Option<nat>)
    requires from <= |draws|
    ensures r.Some? ==>
      from < r.value <= |draws| && draws[r.value - 1] < limit
      && forall j :: from <= j < r.value - 1 ==> draws[j] >= limit
    ensures r.None? <==> forall j :: from <= j < |draws| ==> draws[j] >= limit
    decreases |draws| - from
  {
    if from == |draws| then None
    else if draws[from] < limit then Some(from + 1)
    else FirstAccepted(draws, from + 1, limit)
  }

  /** Only one position can be the first accepted one. */
  lemma FirstAcceptedUnique(draws: seq<UInt32>, from: nat, limit: int, p: nat)
    requires from < p <= |draws| && draws[p - 1] < limit
    requires forall j :: from <= j < p - 1 ==> draws[j] >= limit
    ensures FirstAccepted(draws, from, limit) == Some(p)
  {
  }

  /** How `Next` ends: a value and the position of the next unread word, a
      division by zero when the range is empty, or (in the model only) a
      random stream that ran out before a draw was accepted. */
  datatype Draw = Drawn(value: int, next: nat) | DivideByZero | OutOfDraws

  /** `maxValue - minValue`, computed in 32-bit arithmetic before it is
      widened to 64 bits. */
  function RangeWidth(minValue: int, maxValue: int): int
  {
    Wrap32(maxValue - minValue)
  }

  /** `(Int32)(minValue + (rand % diff))`. The dividend is never negative, so
      the remainder agrees with C#'s for either sign of `diff`. */
  function Scaled(minValue: int, rand: UInt32, diff: int): int
    requires diff != 0
  {
    Wrap32(minValue + rand % diff)
  }

  /** `Next(minValue, maxValue)`, reading the random stream from `from`:
      reads words until one lies below the acceptance limit and maps it into
      the range. */
  method Next(minValue: int, maxValue: int, draws: seq<UInt32>, from: nat) returns (r: Draw)
    requires IsInt32(minValue) && IsInt32(maxValue) && from <= |draws|
    ensures r.DivideByZero? <==> RangeWidth(minValue, maxValue) == 0
    ensures r.Drawn? ==>
      var diff := RangeWidth(minValue, maxValue);
      diff != 0 && FirstAccepted(draws, from, AcceptLimit(diff)) == Some(r.next)
      && r.value == Scaled(minValue, draws[r.next - 1], diff)
    ensures r.OutOfDraws? ==>
      var diff := RangeWidth(minValue, maxValue);
      diff != 0 && FirstAccepted(draws, from, AcceptLimit(diff)).None?
  {
    var diff := Wrap32(maxValue - minValue);
    if diff == 0 {
      return DivideByZero;
    }
    var max := TwoTo32;
    var remainder := max % diff;
    var k := from;
    while k < |draws|
      invariant from <= k <= |draws|
      invariant forall j :: from <= j < k ==> draws[j] >= max - remainder
    {
      var rand := draws[k];
      if rand < max - remainder {
        FirstAcceptedUnique(draws, from, max - remainder, k + 1);
        return Drawn(Wrap32(minValue + rand % diff), k + 1);
      }
      k := k + 1;
    }
    return OutOfDraws;
  }

  /** For every non-empty range of 32-bit bounds an accepted word maps into
      `[minValue, maxValue)`, also when `maxValue - minValue` overflows: the
      wrapped width is then negative, and its magnitude `2^32 - w` is at most
      the true width `w`. */
  lemma NextValueInRange(minValue: int, maxValue: int, rand: UInt32)
    requires IsInt32(minValue) && IsInt32(maxValue) && minValue < maxValue
    ensures RangeWidth(minValue, maxValue) != 0
    ensures minValue <= Scaled(minValue, rand, RangeWidth(minValue, maxValue)) < maxValue
  {
  }

  /** The words among the first `n` of the stream that lie below `limit`,
      in order: the words `Next` with that limit accepts. */
  function AcceptedIn(draws: seq<UInt32>, n: nat, limit: int): (acc: seq<UInt32>)
    requires n <= |draws|
    ensures |acc| <= n
    decreases n
  {
    if n == 0 then []
    else if draws[n - 1] < limit then AcceptedIn(draws, n - 1, limit) + [draws[n - 1]]
    else AcceptedIn(draws, n - 1, limit)
  }

  /** Words that are all refused add nothing to what is accepted. */
  lemma {:induction false} RefusedAddNothing(draws: seq<UInt32>, from: nat, stop: nat, limit: int)
    requires from <= stop <= |draws|
    requires forall j :: from <= j < stop ==> draws[j] >= limit
    ensures AcceptedIn(draws, stop, limit) == AcceptedIn(draws, from, limit)
    decreases stop
  {
    if from < stop {
      RefusedAddNothing(draws, from, stop - 1, limit);
    }
  }

  /** Reading on to the next accepted word adds exactly that word; when
      there is none, the rest of the stream adds nothing. */
  lemma AcceptedStep(draws: seq<UInt32>, from: nat, limit: int)
    requires from <= |draws|
    ensures FirstAccepted(draws, from, limit).Some? ==>
      var p := FirstAccepted(draws, from, limit).value;
      AcceptedIn(draws, p, limit) == AcceptedIn(draws, from, limit) + [draws[p - 1]]
    ensures FirstAccepted(draws, from, limit).None? ==>
      AcceptedIn(draws, |draws|, limit) == AcceptedIn(draws, from, limit)
  {
    var r := FirstAccepted(draws, from, limit);
    if r.Some? {
      RefusedAddNothing(draws, from, r.value - 1, limit);
    } else {
      RefusedAddNothing(draws, from, |draws|, limit);
    }
  }

  /** What fewer words accept is a prefix of what more words accept. */
  lemma {:induction false} AcceptedInPrefix(draws: seq<UInt32>, m: nat, n: nat, limit: int)
    requires m <= n <= |draws|
    ensures |AcceptedIn(draws, m, limit)| <= |AcceptedIn(draws, n, limit)|
    ensures AcceptedIn(draws, n, limit)[..|AcceptedIn(draws, m, limit)|] == AcceptedIn(draws, m, limit)
    decreases n - m
  {
    if m < n {
      AcceptedInPrefix(draws, m, n - 1, limit);
      var a := AcceptedIn(draws, n - 1, limit);
      var k := |AcceptedIn(draws, m, limit)|;
      assert AcceptedIn(draws, n, limit)[..|a|] == a;
      assert AcceptedIn(draws, n, limit)[..k] == a[..k];
    }
  }

  /** The words of the stream `Next` accepts for the salt. */
  function AcceptedCount(draws: seq<UInt32>): nat
  {
    |AcceptedIn(draws, |draws|, SaltLimit)|
  }

  /** What the words from position `m` on accept is what the whole stream
      accepts less what the first `m` words accept. */
  lemma {:induction false} AcceptedInSuffix(draws: seq<UInt32>, m: nat, n: nat, limit: int)
    requires m <= n <= |draws|
    ensures |AcceptedIn(draws[m..], n - m, limit)| == |AcceptedIn(draws, n, limit)| - |AcceptedIn(draws, m, limit)|
    decreases n
  {
    if m < n {
      AcceptedInSuffix(draws, m, n - 1, limit);
      assert draws[m..][n - 1 - m] == draws[n - 1];
    }
  }

  /** What the stream accepts after its first `m` words. */
  lemma AcceptedRest(draws: seq<UInt32>, m: nat)
    requires m <= |draws|
    ensures AcceptedCount(draws[m..]) == AcceptedCount(draws) - |AcceptedIn(draws, m, SaltLimit)|
  {
    AcceptedInSuffix(draws, m, |draws|, SaltLimit);
    assert |draws[m..]| == |draws| - m;
  }

  /** The width of the salt range: `Next(0, SaltAlphabet.Length - 1)`. */
  const SaltRange: int := 63

  /** The acceptance limit of `Next(0, SaltRange)`: 2^32 less 2^32 mod 63. */
  const SaltLimit: int := 0xFFFF_FFFC

  /** The salt a sequence of accepted words stands for: each word indexes
      the alphabet by its residue modulo the range. */
  function SaltOf(accepted: seq<UInt32>): (salt: string)
    ensures |salt| == |accepted|
  {
    seq(|accepted|, i requires 0 <= i < |accepted| => SaltAlphabet[accepted[i] % SaltRange])
  }

  /** A salt only ever holds characters before the last alphabet position. */
  lemma SaltOfAvoidsLastPosition(accepted: seq<UInt32>)
    ensures forall i :: 0 <= i < |accepted| ==> SaltOf(accepted)[i] in SaltAlphabet[..SaltRange]
  {
    forall i | 0 <= i < |accepted|
      ensures SaltOf(accepted)[i] in SaltAlphabet[..SaltRange]
    {
      var k := accepted[i] % SaltRange;
      assert SaltOf(accepted)[i] == SaltAlphabet[..SaltRange][k];
    }
  }

  /** Where the random stream stands after `k` successive draws of
      `Next(0, SaltRange)`, or `None` when it runs out first. */
  function SaltPrefix(draws: seq<UInt32>, k: nat): (r: Option<nat>)
    ensures r.Some? ==> r.value <= |draws|
    decreases k
  {
    if k == 0 then Some(0)
    else
      var before := SaltPrefix(draws, k - 1);
      if before.None? then None else FirstAccepted(draws, before.value, SaltLimit)
  }

  /** The words `k` draws read hold exactly `k` accepted words; when the
      draws cannot complete, the whole stream holds fewer than `k`. */
  lemma {:induction false} SaltPrefixAccepted(draws: seq<UInt32>, k: nat)
    ensures SaltPrefix(draws, k).Some? ==>
      |AcceptedIn(draws, SaltPrefix(draws, k).value, SaltLimit)| == k
    ensures SaltPrefix(draws, k).None? ==> |AcceptedIn(draws, |draws|, SaltLimit)| < k
    decreases k
  {
    if k > 0 {
      SaltPrefixAccepted(draws, k - 1);
      var before := SaltPrefix(draws, k - 1);
      if before.Some? {
        AcceptedStep(draws, before.value, SaltLimit);
      }
    }
  }

  /** The salt a random stream yields and the position after the words read
      for it: the first fifteen accepted words, or nothing once every word is
      read. */
  function DrawSalt(draws: seq<UInt32>): (r: (Option<string>, nat))
    ensures r.1 <= |draws|
    ensures r.0.None? <==> |AcceptedIn(draws, |draws|, SaltLimit)| < SaltLength
    ensures r.0.None? ==> r.1 == |draws|
    ensures r.0.Some? ==>
      |r.0.value| == SaltLength && |AcceptedIn(draws, r.1, SaltLimit)| == SaltLength
      && r.0.value == SaltOf(AcceptedIn(draws, |draws|, SaltLimit)[..SaltLength])
    ensures AcceptedCount(draws[r.1..]) == if AcceptedCount(draws) < SaltLength then 0 else AcceptedCount(draws) - SaltLength
  {
    SaltPrefixAccepted(draws, SaltLength);
    var prefix := SaltPrefix(draws, SaltLength);
    if prefix.None? then
      AcceptedRest(draws, |draws|);
      (None, |draws|)
    else
      AcceptedInPrefix(draws, prefix.value, |draws|, SaltLimit);
      AcceptedRest(draws, prefix.value);
      (Some(SaltOf(AcceptedIn(draws, prefix.value, SaltLimit))), prefix.value)
  }

  /** One character of the salt, `_saltAlphabet[Next(0, Length - 1)]`, with
      the stream read from `from`. */
  method NextSaltCharacter(draws: seq<UInt32>, from: nat) returns (r: Option<(char, nat)>)
    requires from <= |draws|
    ensures r.None? <==> FirstAccepted(draws, from, SaltLimit).None?
    ensures r.Some? ==>
      FirstAccepted(draws, from, SaltLimit) == Some(r.value.1)
      && r.value.0 == SaltAlphabet[draws[r.value.1 - 1] % SaltRange]
  {
    SaltRangeFits();
    var d := Next(0, |SaltAlphabet| - 1, draws, from);
    if !d.Drawn? {
      return None;
    }
    ScaledSalt(draws[d.next - 1]);
    return Some((SaltAlphabet[d.value], d.next));
  }

  /** `GenerateSalt`: fifteen draws of `Next(0, 63)`, each indexing the
      alphabet, so the last alphabet position is never drawn. A stream that
      runs out is read to its end. */
  method GenerateSalt(draws: seq<UInt32>) returns (salt: Option<string>, used: nat)
    ensures (salt, used) == DrawSalt(draws)
  {
    var sb: string := "";
    used := 0;
    assert SaltPrefix(draws, 0) == Some(0);
    assert AcceptedIn(draws, 0, SaltLimit) == [];
    assert SaltLoopState(draws, 0, used, sb);
    for i := 0 to SaltLength
      invariant SaltLoopState(draws, i, used, sb)
    {
      var next := AppendSaltCharacter(draws, i, used, sb);
      if next.None? {
        return None, |draws|;
      }
      sb, used := next.value.0, next.value.1;
    }
    DrawCompletes(draws, SaltLength, used, sb);
    salt := Some(sb);
  }

  /** After `i` passes of the loop of `GenerateSalt`: `i` draws read the
      stream up to `used`, and `sb` holds the characters of the words they
      accepted. */
  predicate SaltLoopState(draws: seq<UInt32>, i: nat, used: nat, sb: string)
  {
    SaltPrefix(draws, i) == Some(used) && used <= |draws| && sb == SaltOf(AcceptedIn(draws, used, SaltLimit))
  }

  /** One pass of the loop of `GenerateSalt`: the `i`-th character appended
      to `sb`, with the stream read on from `used`. */
  method AppendSaltCharacter(draws: seq<UInt32>, i: nat, used: nat, sb: string) returns (next: Option<(string, nat)>)
    requires i < SaltLength && SaltLoopState(draws, i, used, sb)
    ensures next.None? ==> DrawSalt(draws) == (None, |draws|)
    ensures next.Some? ==> SaltLoopState(draws, i + 1, next.value.1, next.value.0)
  {
    var c := NextSaltCharacter(draws, used);
    if c.None? {
      DrawFails(draws, i, used);
      return None;
    }
    DrawSucceeds(draws, i, used, c.value.1);
    return Some((sb + [c.value.0], c.value.1));
  }

  /** Fifteen draws that all find a word yield the salt of the words read. */
  lemma DrawCompletes(draws: seq<UInt32>, k: nat, used: nat, sb: string)
    requires k == SaltLength && SaltLoopState(draws, k, used, sb)
    ensures DrawSalt(draws) == (Some(sb), used)
  {
  }

  /** The salt range is computed without wrap-around. */
  lemma SaltRangeFits()
    ensures SaltRange == |SaltAlphabet| - 1
    ensures RangeWidth(0, SaltRange) == SaltRange && AcceptLimit(SaltRange) == SaltLimit
  {
  }

  /** A word drawn for the salt indexes the alphabet by its residue. */
  lemma ScaledSalt(w: UInt32)
    ensures Scaled(0, w, SaltRange) == w % SaltRange < SaltRange
  {
  }

  /** A draw that finds no accepted word ends salt generation without a
      salt, whichever character it was for. */
  lemma DrawFails(draws: seq<UInt32>, i: nat, used: nat)
    requires i < SaltLength && used <= |draws| && SaltPrefix(draws, i) == Some(used)
    requires FirstAccepted(draws, used, SaltLimit).None?
    ensures DrawSalt(draws) == (None, |draws|)
  {
    assert SaltPrefix(draws, i + 1).None?;
    SaltPrefixAccepted(draws, i + 1);
  }

  /** A draw that stops at `p` appends the character of the word before `p`. */
  lemma DrawSucceeds(draws: seq<UInt32>, i: nat, used: nat, p: nat)
    requires used <= |draws| && SaltPrefix(draws, i) == Some(used)
    requires FirstAccepted(draws, used, SaltLimit) == Some(p)
    ensures SaltPrefix(draws, i + 1) == Some(p)
    ensures SaltOf(AcceptedIn(draws, p, SaltLimit))
            == SaltOf(AcceptedIn(draws, used, SaltLimit)) + [SaltAlphabet[draws[p - 1] % SaltRange]]
  {
    AcceptedStep(draws, used, SaltLimit);
    SaltOfAppend(AcceptedIn(draws, used, SaltLimit), draws[p - 1]);
  }

  lemma SaltOfAppend(accepted: seq<UInt32>, word: UInt32)
    ensures SaltOf(accepted + [word]) == SaltOf(accepted) + [SaltAlphabet[word % SaltRange]]
  {
  }

  /** Every character of the alphabet can still appear in a salt: the one
      position `Next(0, Length - 1)` never reaches holds a `0`, which also
      stands earlier. */
  lemma EveryAlphabetCharacterReachable()
    ensures forall c :: c in SaltAlphabet ==> c in SaltAlphabet[..SaltRange]
  {
    assert SaltAlphabet[SaltRange] == SaltAlphabet[53] == '0';
  }

  /** `HashPassword(password, salt)`: a digest of the concatenation; the
      digest function itself is given by the caller. */
  function HashPassword(hash: string -> string, password: string, salt: string): string
  {
    hash(password + salt)
  }

  datatype CreateAccountDto = CreateAccountDto(
    email: string, firstName: string, lastName: string, password: string, confirmPassword: string)

  /** The account `CreateAccountAsync` builds before saving it: role 0
      (not assigned), the salt, and the hash of the confirmed password. */
  function NewAccount(model: CreateAccountDto, salt: string, hash: string -> string): (a: Account)
    ensures a.role == NotAssigned && a.salt == salt
    ensures a.password == HashPassword(hash, model.confirmPassword, salt)
    ensures a.email == model.email && a.firstName == model.firstName && a.lastName == model.lastName
  {
    Account(0, model.email, model.firstName, model.lastName, NotAssigned, salt,
            HashPassword(hash, model.confirmPassword, salt), true)
  }

  /** What `CreateAccountAsync` does to a unit of work in state `st` whose
      commits fail when `fails` holds: the new account, the words read from
      the random stream, and the new state. Any failure (a refused commit,
      or here a random stream that runs out) rolls back, discarding every
      staged change, and yields null. */
  function CreateAccountEffect(st: Staging, model: CreateAccountDto, draws: seq<UInt32>,
                               hash: string -> string, fails: bool): (r: (Staging, Option<Account>, nat))
    ensures r.2 <= |draws| && r.0.pending == []
    ensures AcceptedCount(draws[r.2..]) == if AcceptedCount(draws) < SaltLength then 0 else AcceptedCount(draws) - SaltLength
    ensures r.1.Some? <==> !fails && |AcceptedIn(draws, |draws|, SaltLimit)| >= SaltLength
    ensures r.1.None? ==> r.0.saved == st.saved
    ensures r.1.Some? ==>
      var a := r.1.value;
      a.role == NotAssigned && |a.salt| == SaltLength && a.isActive
      && a.email == model.email && a.firstName == model.firstName && a.lastName == model.lastName
      && a.password == HashPassword(hash, model.confirmPassword, a.salt)
  {
    var (salt, used) := DrawSalt(draws);
    if salt.None? || fails then (Staging(st.saved, []), None, used)
    else
      var account := NewAccount(model, salt.value, hash);
      (Staging(ApplyAll(st.saved, st.pending + [AddAccount(account)]), []),
       Some(account.(id := Committed(st).nextId)), used)
  }

  /** A created account is committed together with what was staged before
      it: it is appended to the accounts, with the next identity, and no
      other table changes. */
  lemma CreatedAccountIsSaved(st: Staging, model: CreateAccountDto, draws: seq<UInt32>,
                              hash: string -> string, fails: bool)
    ensures var r := CreateAccountEffect(st, model, draws, hash, fails);
      r.1.Some? ==>
      r.1.value.id == Committed(st).nextId
      && r.0.saved == Committed(st).(accounts := Committed(st).accounts + [r.1.value], nextId := Committed(st).nextId + 1)
  {
    var r := CreateAccountEffect(st, model, draws, hash, fails);
    if r.1.Some? {
      ApplyAllAppend(st.saved, st.pending, AddAccount(r.1.value.(id := 0)));
    }
  }

  /** `CreateAccountAsync`: builds the account, adds it and commits; any
      failure rolls back and yields null. */
  method CreateAccount(uow: UnitOfWork, model: CreateAccountDto, draws: seq<UInt32>, hash: string -> string)
    returns (created: Option<Account>, used: nat)
    modifies uow
    ensures (uow.State(), created, used) == CreateAccountEffect(old(uow.State()), model, draws, hash, uow.commitFails)
  {
    var salt;
    salt, used := GenerateSalt(draws);
    if salt.None? {
      uow.Rollback();
      return None, used;
    }
    var account := NewAccount(model, salt.value, hash);
    uow.Add(AddAccount(account));
    var ok := uow.Commit();
    if !ok {
      uow.Rollback();
      return None, used;
    }
    ApplyAllAppend(old(uow.saved), old(uow.pending), AddAccount(account));
    created := Some(uow.saved.accounts[|uow.saved.accounts| - 1]);
  }

  datatype AuthenticationDto = AuthenticationDto(email: string, password: string)

  /** `GetAccountCredentialsAsync`: with the salt stored for the e-mail, the
      password is hashed and the account with that e-mail and hash is looked
      up; an empty salt (no such account) gives null. */
  function GetAccountCredentials(db: Db, credentials: AuthenticationDto, hash: string -> string): (r: Option<Account>)
    ensures SaltByEmail(db.accounts, credentials.email) == "" ==> r.None?
    ensures r.Some? ==>
      r.value in db.accounts && r.value.email == credentials.email
      && r.value.password == HashPassword(hash, credentials.password, SaltByEmail(db.accounts, credentials.email))
    ensures SaltByEmail(db.accounts, credentials.email) != "" && r.None? ==>
      forall a :: a in db.accounts ==>
        a.email != credentials.email
        || a.password != HashPassword(hash, credentials.password, SaltByEmail(db.accounts, credentials.email))
  {
    var salt := SaltByEmail(db.accounts, credentials.email);
    if salt != "" then
      AccountWithCredentials(db.accounts, credentials.email, HashPassword(hash, credentials.password, salt))
    else
      None
  }

  /** With unique e-mails, the account found is the one registered with that
      e-mail, and the password given hashes with its own salt to its hash. */
  lemma CredentialsMatchOwnSalt(db: Db, credentials: AuthenticationDto, hash: string -> string)
    requires forall i, j :: 0 <= i < j < |db.accounts| ==> db.accounts[i].email != db.accounts[j].email
    requires GetAccountCredentials(db, credentials, hash).Some?
    ensures GetAccountCredentials(db, credentials, hash).value.password
            == HashPassword(hash, credentials.password, GetAccountCredentials(db, credentials, hash).value.salt)
  {
    var a := GetAccountCredentials(db, credentials, hash).value;
    SaltOfUniqueEmail(db.accounts, a);
  }

  lemma {:induction false} SaltOfUniqueEmail(accounts: seq<Account>, a: Account)
    requires forall i, j :: 0 <= i < j < |accounts| ==> accounts[i].email != accounts[j].email
    requires a in accounts
    ensures SaltByEmail(accounts, a.email) == a.salt
    decreases |accounts|
  {
    if accounts[0] != a {
      assert a in accounts[1..];
      var k :| 0 <= k < |accounts| && accounts[k] == a;
      assert accounts[0].email != a.email;
      SaltOfUniqueEmail(accounts[1..], a);
    }
  }

  /** `DisableAccountAsync`: stages the disabling and commits; true whenever
      the commit goes through, whatever the repository reported. */
  method DisableAccount(uow: UnitOfWork, id: int) returns (ok: bool)
    modifies uow
    ensures ok == !uow.commitFails
    ensures ok ==> uow.saved == ApplyAll(old(uow.saved), old(uow.pending) + [SetInactive(id)])
    ensures !ok ==> uow.saved == old(uow.saved)
    ensures uow.pending == []
  {
    uow.Add(SetInactive(id));
    var committed := uow.Commit();
    if !committed {
      uow.Rollback();
      return false;
    }
    return true;
  }
}
