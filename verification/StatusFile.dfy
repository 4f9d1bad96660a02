/**
 * Reading the update status file: `interpretaStatoAggiornamento` of src/lib/aggiornamento-stato.ts,
 * from parsed JSON to the typed status.
 */
module StatusFile {
  import opened Sequences
  import U = UpdateStatus

  /** The member names the reader looks at, and any other. */
  datatype Key =
    | CommitAvviato | UltimoTentativo | UltimoSuccesso | UltimoControllo
    | Commit | DaCommit | IniziatoIl | FinitoIl | Fase | Esito | Messaggio | Avvisi | Tentativi
    | Il | Nota | RichiestoDaInterfaccia
    | OtherKey(text: string)

  /** A parsed JSON value; a number too large to hold is infinite. */
  datatype Json =
    | Null
    | Bool(flag: bool)
    | Number(value: real)
    | Infinite
    | Text(text: string)
    | List(items: seq<Json>)
    | Object(members: map<Key, Json>)

  datatype Attempt = Attempt(
    commit: string, fromCommit: Option<string>, finishedAt: Option<string>, tries: Option<real>, judged: U.Attempt)

  datatype Success = Success(commit: string, at: string, note: Option<string>)

  datatype Check = Check(judged: U.Check, fromInterface: bool)

  datatype Status = Status(
    startedCommit: Option<string>, lastAttempt: Option<Attempt>, lastSuccess: Option<Success>, lastCheck: Option<Check>)

  const EMPTY := Status(None, None, None, None)

  function AttemptText(o: U.AttemptOutcome): string {
    match o
    case Running => "in_corso"
    case Succeeded => "riuscito"
    case Failed => "fallito"
    case Interrupted => "interrotto"
    case ReadyNotStarted => "pronto_non_avviato"
  }

  function CheckText(o: U.CheckOutcome): string {
    match o
    case UpToDate => "gia_aggiornato"
    case WaitingAfterFailures => "commit_fallito_attendo"
    case DocumentationOnly => "solo_documentazione"
    case UpdateStarted => "aggiornamento_avviato"
    case FetchFailed => "fetch_fallito"
    case ServiceStopped => "servizio_fermo"
    case DowngradeRefused => "retrocessione_rifiutata"
  }

  const ATTEMPT_OUTCOMES: seq<U.AttemptOutcome> := [U.Running, U.Succeeded, U.Failed, U.Interrupted, U.ReadyNotStarted]

  const CHECK_OUTCOMES: seq<U.CheckOutcome> :=
    [U.UpToDate, U.WaitingAfterFailures, U.DocumentationOnly, U.UpdateStarted, U.FetchFailed, U.ServiceStopped,
     U.DowngradeRefused]

  // ---------- the reader ----------

  /** A member's value; a missing one reads as null. */
  function Member(members: map<Key, Json>, k: Key): Json {
    if k in members then members[k] else Null
  }

  /** `testo`: a string that is not blank. */
  function TextOf(j: Json): Option<string> {
    if j.Text? && Trim(j.text) != "" then Some(j.text) else None
  }

  /** `uno`: the outcome of the list written so. */
  function OneOf<O>(j: Json, allowed: seq<O>, text: O -> string): Option<O> {
    if !j.Text? || allowed == [] then None
    else if text(allowed[0]) == j.text then Some(allowed[0])
    else OneOf(j, allowed[1..], text)
  }

  function Strings(items: seq<Json>): seq<string> {
    if items == [] then []
    else if items[0].Text? then [items[0].text] + Strings(items[1..])
    else Strings(items[1..])
  }

  function ReadAttempt(j: Json): Option<Attempt> {
    if !j.Object? || TextOf(Member(j.members, Commit)).None? then None
    else
      var m := j.members;
      Some(Attempt(
        TextOf(Member(m, Commit)).value, TextOf(Member(m, DaCommit)), TextOf(Member(m, FinitoIl)),
        if Member(m, Tentativi).Number? then Some(Member(m, Tentativi).value) else None,
        U.Attempt(TextOf(Member(m, IniziatoIl)), TextOf(Member(m, Fase)),
                  OneOf(Member(m, Esito), ATTEMPT_OUTCOMES, AttemptText), TextOf(Member(m, Messaggio)),
                  if Member(m, Avvisi).List? then Strings(Member(m, Avvisi).items) else [])))
  }

  function ReadSuccess(j: Json): Option<Success> {
    if !j.Object? || TextOf(Member(j.members, Commit)).None? || TextOf(Member(j.members, Il)).None? then None
    else
      var m := j.members;
      Some(Success(TextOf(Member(m, Commit)).value, TextOf(Member(m, Il)).value, TextOf(Member(m, Nota))))
  }

  function ReadCheck(j: Json): Option<Check> {
    if !j.Object? || TextOf(Member(j.members, Il)).None? then None
    else
      var outcome := OneOf(Member(j.members, Esito), CHECK_OUTCOMES, CheckText);
      if outcome.None? then None
      else Some(Check(U.Check(TextOf(Member(j.members, Il)).value, outcome.value),
                      Member(j.members, RichiestoDaInterfaccia) == Bool(true)))
  }

  function Interpret(j: Json): Status {
    if !j.Object? then EMPTY
    else Status(TextOf(Member(j.members, CommitAvviato)), ReadAttempt(Member(j.members, UltimoTentativo)),
                ReadSuccess(Member(j.members, UltimoSuccesso)), ReadCheck(Member(j.members, UltimoControllo)))
  }

  // ---------- what is read ----------

  predicate NotBlank(t: Option<string>) {
    t.Some? ==> Trim(t.value) != ""
  }

  predicate GoodAttempt(t: Attempt) {
    && Trim(t.commit) != "" && NotBlank(t.fromCommit) && NotBlank(t.judged.startedAt) && NotBlank(t.finishedAt)
    && NotBlank(t.judged.phase) && NotBlank(t.judged.message)
  }

  /** The statuses a file can hold: no text but a warning is blank. */
  predicate Good(s: Status) {
    && NotBlank(s.startedCommit)
    && (s.lastAttempt.Some? ==> GoodAttempt(s.lastAttempt.value))
    && (s.lastSuccess.Some? ==>
          && Trim(s.lastSuccess.value.commit) != "" && Trim(s.lastSuccess.value.at) != ""
          && NotBlank(s.lastSuccess.value.note))
    && (s.lastCheck.Some? ==> Trim(s.lastCheck.value.judged.at) != "")
  }

  lemma AttemptOutcomesReadBack(o: U.AttemptOutcome)
    ensures OneOf(Text(AttemptText(o)), ATTEMPT_OUTCOMES, AttemptText) == Some(o)
  {
    AttemptTextsDiffer();
    FoundByText(o, ATTEMPT_OUTCOMES, AttemptText);
  }

  lemma AttemptTextsDiffer()
    ensures forall o, p :: AttemptText(o) == AttemptText(p) ==> o == p
  {
    forall o, p | AttemptText(o) == AttemptText(p) ensures o == p {
      assert AttemptText(o)[0] == AttemptText(p)[0] && |AttemptText(o)| == |AttemptText(p)|;
    }
  }

  lemma {:induction false} FoundByText<O>(o: O, allowed: seq<O>, text: O -> string)
    requires o in allowed && forall p :: p in allowed && text(p) == text(o) ==> p == o
    ensures OneOf(Text(text(o)), allowed, text) == Some(o)
  {
    if text(allowed[0]) != text(o) {
      FoundByText(o, allowed[1..], text);
    }
  }

  lemma AttemptIsGood(j: Json)
    ensures ReadAttempt(j).Some? ==> GoodAttempt(ReadAttempt(j).value)
  {
    hide Trim, Strings, OneOf;
  }

  /** What is left of a value that is written and parsed again: an infinite number becomes null. */
  function Stored(j: Json): Json {
    match j
    case Infinite => Null
    case List(items) => List(seq(|items|, i requires 0 <= i < |items| => Stored(items[i])))
    case Object(members) => Object(map k | k in members :: Stored(members[k]))
    case _ => j
  }

  /** Writing what was written and parsed changes nothing more. */
  lemma {:induction false} StoredIsStable(j: Json)
    ensures Stored(j) != Infinite && Stored(Stored(j)) == Stored(j)
  {
    match j
    case List(items) =>
      forall i | 0 <= i < |items| ensures Stored(Stored(items[i])) == Stored(items[i]) {
        StoredIsStable(items[i]);
      }
    case Object(members) =>
      forall k | k in members ensures Stored(Stored(members[k])) == Stored(members[k]) {
        StoredIsStable(members[k]);
      }
    case _ =>
  }

  lemma {:induction false} StoredStrings(items: seq<Json>, stored: seq<Json>)
    requires |stored| == |items| && forall i :: 0 <= i < |items| ==> stored[i] == Stored(items[i])
    ensures Strings(stored) == Strings(items)
  {
    if items != [] {
      StoredStrings(items[1..], stored[1..]);
    }
  }

  /** The members of a value written and parsed again. */
  lemma StoredMember(j: Json, k: Key)
    requires j.Object?
    ensures Stored(j).Object? && Member(Stored(j).members, k) == Stored(Member(j.members, k))
  {
  }

  lemma StoredText(j: Json)
    ensures TextOf(Stored(j)) == TextOf(j)
    ensures Stored(j).Object? <==> j.Object?
  {
    hide Trim;
  }

  lemma {:induction false} StoredOneOf<O>(j: Json, allowed: seq<O>, text: O -> string)
    ensures OneOf(Stored(j), allowed, text) == OneOf(j, allowed, text)
  {
    if j.Text? && allowed != [] {
      StoredOneOf(j, allowed[1..], text);
    }
  }

  lemma StoredAttempt(j: Json)
    ensures ReadAttempt(Stored(j)) == ReadAttempt(j)
  {
    hide TextOf, OneOf, Strings, Member;
    StoredText(j);
    if j.Object? {
      var m := j.members;
      forall k ensures Member(Stored(j).members, k) == Stored(Member(m, k)) {
        StoredMember(j, k);
      }
      forall k ensures TextOf(Member(Stored(j).members, k)) == TextOf(Member(m, k)) {
        StoredText(Member(m, k));
      }
      StoredOneOf(Member(m, Esito), ATTEMPT_OUTCOMES, AttemptText);
      StoredWarnings(Member(m, Avvisi));
    }
  }

  lemma StoredWarnings(j: Json)
    ensures Stored(j).List? <==> j.List?
    ensures j.List? ==> Strings(Stored(j).items) == Strings(j.items)
  {
    if j.List? {
      StoredStrings(j.items, Stored(j).items);
    }
  }

  lemma StoredSuccess(j: Json)
    ensures ReadSuccess(Stored(j)) == ReadSuccess(j)
  {
    hide TextOf, Member;
    StoredText(j);
    if j.Object? {
      forall k ensures TextOf(Member(Stored(j).members, k)) == TextOf(Member(j.members, k)) {
        StoredMember(j, k);
        StoredText(Member(j.members, k));
      }
    }
  }

  lemma StoredCheck(j: Json)
    ensures ReadCheck(Stored(j)) == ReadCheck(j)
  {
    hide TextOf, Member, OneOf;
    StoredText(j);
    if j.Object? {
      forall k ensures Member(Stored(j).members, k) == Stored(Member(j.members, k)) {
        StoredMember(j, k);
      }
      StoredText(Member(j.members, Il));
      StoredOneOf(Member(j.members, Esito), CHECK_OUTCOMES, CheckText);
    }
  }

  /** Whatever the file holds, what is read is a good status; and writing the same file back keeps it. */
  lemma AnyFileReads(j: Json)
    ensures Good(Interpret(j))
    ensures Interpret(Stored(j)) == Interpret(j)
  {
    hide Trim, ReadAttempt, OneOf, ReadSuccess, ReadCheck, Good, TextOf, Member;
    StoredText(j);
    if j.Object? {
      forall k ensures Member(Stored(j).members, k) == Stored(Member(j.members, k)) {
        StoredMember(j, k);
      }
      StoredText(Member(j.members, CommitAvviato));
      StoredAttempt(Member(j.members, UltimoTentativo));
      StoredSuccess(Member(j.members, UltimoSuccesso));
      StoredCheck(Member(j.members, UltimoControllo));
    }
    ReadIsGood(j);
  }

  lemma ReadIsGood(j: Json)
    ensures Good(Interpret(j))
  {
    hide Trim, ReadAttempt, OneOf;
    if j.Object? {
      AttemptIsGood(Member(j.members, UltimoTentativo));
    }
  }

  // ---------- from the file to the verdict ----------

  function Judged(s: Status): U.Status {
    U.Status(if s.lastAttempt.Some? then Some(s.lastAttempt.value.judged) else None,
             if s.lastCheck.Some? then Some(s.lastCheck.value.judged) else None)
  }

  /**
   * A damaged record answers nobody: with neither the attempt nor the check readable, the verdict for
   * every request is to wait; and a blank start never reaches the verdict.
   */
  lemma DamagedRecordsWait(j: Json, requestedAt: string)
    ensures ReadAttempt(if j.Object? then Member(j.members, UltimoTentativo) else Null).None?
            && ReadCheck(if j.Object? then Member(j.members, UltimoControllo) else Null).None?
            ==> U.Judge(Judged(Interpret(j)), requestedAt) == U.Waiting
    ensures var t := Judged(Interpret(j)).lastAttempt;
            t.Some? && t.value.startedAt.Some? ==> Trim(t.value.startedAt.value) != ""
  {
    hide ReadAttempt, ReadCheck, Trim;
    AnyFileReads(j);
  }
}
