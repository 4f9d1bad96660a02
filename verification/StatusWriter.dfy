/**
 * Writing the update status file: the commands of scripts/stato-aggiornamento.mjs, applied to
 * whatever JSON the file holds, and what the reader of `StatusFile` makes of a run of them.
 */
module StatusWriter {
  import opened Sequences
  import opened StatusFile
  import U = UpdateStatus
  import Oid

  type Members = map<Key, Json>

  /** A command; a missing argument is the empty text, as every command treats both alike. */
  datatype Command =
    | Begin(commit: string, from: string)
    | EnterPhase(name: string)
    | Warn(text: string)
    | End(outcome: string, message: string)
    | Launched(launched: string, note: string)
    | Checked(result: string, origin: string)
    | Unknown

  /** A command and the time at which it is applied. */
  datatype Entry = Entry(command: Command, at: string)

  /** What `Number` makes of a value; what it makes of texts, lists and objects is a parameter. */
  datatype Numeric = NotANumber | Finite(value: real) | Unbounded

  type Coercion = Json -> Numeric

  const ENDINGS: seq<U.AttemptOutcome> := [U.Succeeded, U.Failed, U.Interrupted, U.ReadyNotStarted]

  // ---------- JavaScript's values ----------

  predicate Truthy(j: Json) {
    match j
    case Null => false
    case Bool(flag) => flag
    case Number(value) => value != 0.0
    case Text(text) => text != ""
    case _ => true
  }

  /** The indices of a list or a text as member names. */
  function Indexed(items: seq<Json>): Members {
    if items == [] then map[]
    else Indexed(items[..|items| - 1])[OtherKey(Oid.Decimal(|items| - 1)) := items[|items| - 1]]
  }

  function Characters(t: string): seq<Json> {
    seq(|t|, i requires 0 <= i < |t| => Text([t[i]]))
  }

  /** `{ ...j }` */
  function Spread(j: Json): Members {
    match j
    case Object(members) => members
    case List(items) => Indexed(items)
    case Text(text) => Indexed(Characters(text))
    case _ => map[]
  }

  function Own(m: Members, k: Key): Option<Json> {
    if k in m then Some(m[k]) else None
  }

  /** Assigning `undefined` leaves no member once the object is written. */
  function Put(m: Members, k: Key, j: Option<Json>): Members {
    if j.Some? then m[k := j.value] else m - {k}
  }

  /** `text || null` */
  function OrNull(text: string): Json {
    if text != "" then Text(text) else Null
  }

  function ToNumber(coerce: Coercion, j: Option<Json>): Numeric {
    match j
    case None => NotANumber
    case Some(Null) => Finite(0.0)
    case Some(Bool(flag)) => Finite(if flag then 1.0 else 0.0)
    case Some(Number(value)) => Finite(value)
    case Some(Infinite) => Unbounded
    case Some(other) => coerce(other)
  }

  /** `(n || 1) + 1` */
  function OneMore(n: Numeric): Json {
    match n
    case NotANumber => Number(2.0)
    case Finite(value) => Number(if value == 0.0 then 2.0 else value + 1.0)
    case Unbounded => Infinite
  }

  // ---------- the commands ----------

  /** `leggiStato`: the members of the file; none when it is absent, unreadable or not an object. */
  function Loaded(file: Option<Json>): Members {
    if file.Some? && (file.value.Object? || file.value.List?) then Spread(file.value) else map[]
  }

  /** The record of the last attempt; None stands for a value that counts as none. */
  function LastRecord(m: Members): Option<Members> {
    if Truthy(Member(m, UltimoTentativo)) then Some(Spread(Member(m, UltimoTentativo))) else None
  }

  predicate SameCommitAgain(t: Option<Members>, commit: string) {
    t.Some? && Own(t.value, Commit) == Some(Text(commit)) && Own(t.value, Esito) != Some(Text("riuscito"))
  }

  function Begun(coerce: Coercion, t: Option<Members>, commit: string, from: string, at: string): Members {
    map[Commit := Text(commit), DaCommit := OrNull(from), IniziatoIl := Text(at), FinitoIl := Null,
        Fase := Text("inizio"), Esito := Text("in_corso"), Messaggio := Null, Avvisi := List([]),
        Tentativi := if SameCommitAgain(t, commit) then OneMore(ToNumber(coerce, Own(t.value, Tentativi)))
                     else Number(1.0)]
  }

  /** `[...(t.avvisi || [])]`; None where that throws. */
  function WarningsOf(t: Members): Option<seq<Json>> {
    var j := Member(t, Avvisi);
    if !Truthy(j) then Some([])
    else match j
      case List(items) => Some(items)
      case Text(text) => Some(Characters(text))
      case _ => None
  }

  /** The four outcomes that `fine` takes, as they are written. */
  function Ending(outcome: string): Option<U.AttemptOutcome> {
    if outcome == "riuscito" then Some(U.Succeeded)
    else if outcome == "fallito" then Some(U.Failed)
    else if outcome == "interrotto" then Some(U.Interrupted)
    else if outcome == "pronto_non_avviato" then Some(U.ReadyNotStarted)
    else None
  }

  /** The seven that `controllo` takes. */
  function CheckEnding(result: string): Option<U.CheckOutcome> {
    if result == "gia_aggiornato" then Some(U.UpToDate)
    else if result == "commit_fallito_attendo" then Some(U.WaitingAfterFailures)
    else if result == "solo_documentazione" then Some(U.DocumentationOnly)
    else if result == "aggiornamento_avviato" then Some(U.UpdateStarted)
    else if result == "fetch_fallito" then Some(U.FetchFailed)
    else if result == "servizio_fermo" then Some(U.ServiceStopped)
    else if result == "retrocessione_rifiutata" then Some(U.DowngradeRefused)
    else None
  }

  function Ended(m: Members, t: Members, outcome: string, message: string, at: string): Members {
    var closed := Object(t[Esito := Text(outcome)][FinitoIl := Text(at)][Messaggio := OrNull(message)]);
    var over := m[UltimoTentativo := closed];
    if outcome != "riuscito" then over
    else
      var commit := Own(t, Commit);
      Put(over, CommitAvviato, commit)[UltimoSuccesso := Object(Put(map[Il := Text(at)], Commit, commit))]
  }

  /** `applica`: the new members, or None where it throws. */
  function Applied(coerce: Coercion, m: Members, c: Command, at: string): Option<Members> {
    var t := LastRecord(m);
    match c
    case Begin(commit, from) =>
      if commit == "" then None else Some(m[UltimoTentativo := Object(Begun(coerce, t, commit, from, at))])
    case EnterPhase(name) =>
      if t.None? then Some(m)
      else Some(m[UltimoTentativo :=
        Object(Put(t.value, Fase, if name != "" then Some(Text(name)) else Own(t.value, Fase)))])
    case Warn(text) =>
      if t.None? then Some(m)
      else if WarningsOf(t.value).None? then None
      else Some(m[UltimoTentativo := Object(t.value[Avvisi := List(WarningsOf(t.value).value + [Text(text)])])])
    case End(outcome, message) =>
      if Ending(outcome).None? then None
      else if t.None? then Some(m)
      else Some(Ended(m, t.value, outcome, message, at))
    case Launched(commit, note) =>
      if commit == "" then None
      else Some(m[CommitAvviato := Text(commit)]
                 [UltimoSuccesso := Object(map[Commit := Text(commit), Il := Text(at), Nota := OrNull(note)])])
    case Checked(result, origin) =>
      if CheckEnding(result).None? then None
      else Some(m[UltimoControllo := Object(map[Il := Text(at), Esito := Text(result),
                                                RichiestoDaInterfaccia := Bool(origin == "interfaccia")])])
    case Unknown => None
  }

  /** The file after a command: one that throws leaves it alone. */
  function Next(coerce: Coercion, file: Option<Json>, e: Entry): Option<Json> {
    var after := Applied(coerce, Loaded(file), e.command, e.at);
    if after.Some? then Some(Stored(Object(after.value))) else file
  }

  function FileAt(coerce: Coercion, file: Option<Json>, run: seq<Entry>, n: nat): Option<Json>
    requires n <= |run|
  {
    if n == 0 then file else Next(coerce, FileAt(coerce, file, run, n - 1), run[n - 1])
  }

  /** What the application reads: nothing from a file that is absent or does not parse. */
  function Reading(file: Option<Json>): Status {
    if file.Some? then Interpret(file.value) else EMPTY
  }

  // ---------- the reader sees what was applied ----------

  lemma {:induction false} IndexedKeys(items: seq<Json>)
    ensures forall k :: k in Indexed(items) ==> k.OtherKey?
  {
    if items != [] {
      IndexedKeys(items[..|items| - 1]);
    }
  }

  /** Reading the file is reading the members the writer loads. */
  lemma LoadedReads(file: Option<Json>)
    ensures Reading(file) == Interpret(Object(Loaded(file)))
  {
    if file.Some? && file.value.List? {
      IndexedKeys(file.value.items);
    }
  }

  /** The record of an attempt as the reader takes it, from the members of the file. */
  lemma ReadingIs(file: Option<Json>)
    ensures var m := Loaded(file); var s := Reading(file);
            && s.startedCommit == TextOf(Member(m, CommitAvviato))
            && s.lastAttempt == ReadAttempt(Member(m, UltimoTentativo))
            && s.lastSuccess == ReadSuccess(Member(m, UltimoSuccesso))
            && s.lastCheck == ReadCheck(Member(m, UltimoControllo))
  {
    hide TextOf, ReadAttempt, ReadSuccess, ReadCheck, Loaded, Reading;
    LoadedReads(file);
  }

  /** A command that does not throw is read back from the members it made. */
  lemma NextReads(coerce: Coercion, file: Option<Json>, e: Entry)
    ensures var after := Applied(coerce, Loaded(file), e.command, e.at);
            && (after.None? ==> Next(coerce, file, e) == file)
            && (after.Some? ==>
                  && Reading(Next(coerce, file, e)) == Interpret(Object(after.value))
                  && forall k :: Member(Loaded(Next(coerce, file, e)), k) == Stored(Member(after.value, k)))
  {
    hide Applied, Interpret, Loaded, Stored, Member;
    var after := Applied(coerce, Loaded(file), e.command, e.at);
    if after.Some? {
      AnyFileReads(Object(after.value));
      forall k ensures Member(Loaded(Next(coerce, file, e)), k) == Stored(Member(after.value, k)) {
        StoredMember(Object(after.value), k);
        LoadedObject(Stored(Object(after.value)));
      }
    }
  }

  lemma LoadedObject(j: Json)
    ensures j.Object? ==> Loaded(Some(j)) == j.members
  {
  }

  // ---------- what a run says of the attempt begun at `i` ----------

  /** A command that begins an attempt. */
  predicate Starts(e: Entry) {
    e.command.Begin? && e.command.commit != ""
  }

  /** A command that closes the attempt. */
  predicate Closes(e: Entry) {
    e.command.End? && Ending(e.command.outcome).Some?
  }

  /** No attempt begins strictly between the two positions. */
  predicate NoStart(run: seq<Entry>, i: nat, n: nat)
    requires n <= |run|
  {
    forall k: nat :: i < k < n ==> !Starts(run[k])
  }

  function LastPhase(run: seq<Entry>, i: nat, n: nat): string
    requires i < n <= |run|
  {
    if n == i + 1 then "inizio"
    else if run[n - 1].command.EnterPhase? && run[n - 1].command.name != "" then run[n - 1].command.name
    else LastPhase(run, i, n - 1)
  }

  /** The position of the last command that closes it. */
  function LastClose(run: seq<Entry>, i: nat, n: nat): (k: Option<nat>)
    requires i < n <= |run|
    ensures k.Some? ==> i < k.value < n && Closes(run[k.value])
    ensures forall m: nat :: i < m < n && (k.Some? ==> k.value < m) ==> !Closes(run[m])
  {
    if n == i + 1 then None else if Closes(run[n - 1]) then Some(n - 1) else LastClose(run, i, n - 1)
  }

  function WarningsIn(run: seq<Entry>, i: nat, n: nat): seq<string>
    requires i < n <= |run|
  {
    if n == i + 1 then []
    else WarningsIn(run, i, n - 1) + if run[n - 1].command.Warn? then [run[n - 1].command.text] else []
  }

  function NonBlank(t: string): Option<string> {
    if Trim(t) != "" then Some(t) else None
  }

  /** The attempt begun at `i` as the first `n` commands of the run tell it. */
  function Told(run: seq<Entry>, i: nat, n: nat, tries: Option<real>): Attempt
    requires i < n <= |run| && run[i].command.Begin?
  {
    var k := LastClose(run, i, n);
    Attempt(run[i].command.commit, NonBlank(run[i].command.from),
            if k.Some? then NonBlank(run[k.value].at) else None, tries,
            U.Attempt(NonBlank(run[i].at), NonBlank(LastPhase(run, i, n)),
                      if k.Some? then Ending(run[k.value].command.outcome) else Some(U.Running),
                      if k.Some? then NonBlank(run[k.value].command.message) else None, WarningsIn(run, i, n)))
  }

  /** One more command on the attempt it finds. */
  function Amended(t: Attempt, e: Entry): Attempt {
    match e.command
    case EnterPhase(name) => if name != "" then t.(judged := t.judged.(phase := NonBlank(name))) else t
    case Warn(text) => t.(judged := t.judged.(warnings := t.judged.warnings + [text]))
    case End(outcome, message) =>
      if Ending(outcome).None? then t
      else t.(finishedAt := NonBlank(e.at),
              judged := t.judged.(outcome := Ending(outcome), message := NonBlank(message)))
    case _ => t
  }

  lemma ToldAmended(run: seq<Entry>, i: nat, n: nat, tries: Option<real>)
    requires i < n < |run| && run[i].command.Begin?
    ensures Told(run, i, n + 1, tries) == Amended(Told(run, i, n, tries), run[n])
  {
    hide NonBlank, Ending;
  }

  /** The record of an attempt as `inizio` and the later commands leave it. */
  predicate Tidy(j: Json) {
    j.Object? && TextOf(Member(j.members, Commit)).Some? && Member(j.members, Avvisi).List?
  }

  lemma OrNullReads(text: string)
    ensures TextOf(OrNull(text)) == NonBlank(text)
  {
    assert Trim("") == "";
  }

  lemma {:induction false} FoundHasText<O>(j: Json, allowed: seq<O>, text: O -> string)
    ensures var o := OneOf(j, allowed, text); o.Some? ==> o.value in allowed && j == Text(text(o.value))
  {
    if j.Text? && allowed != [] {
      FoundHasText(j, allowed[1..], text);
    }
  }

  lemma EndingReads(outcome: string)
    ensures Ending(outcome).Some? ==> OneOf(Text(outcome), ATTEMPT_OUTCOMES, AttemptText) == Ending(outcome)
  {
    hide OneOf;
    if Ending(outcome).Some? {
      assert AttemptText(Ending(outcome).value) == outcome;
      AttemptOutcomesReadBack(Ending(outcome).value);
    }
  }

  lemma NonBlankReads(text: string)
    ensures TextOf(Text(text)) == NonBlank(text)
  {
  }

  lemma CheckEndingReads(result: string)
    ensures OneOf(Text(result), CHECK_OUTCOMES, CheckText) == CheckEnding(result)
  {
    hide OneOf, CheckText;
    CheckTexts();
    FoundHasText(Text(result), CHECK_OUTCOMES, CheckText);
    if CheckEnding(result).Some? {
      CheckTextsFind(CheckEnding(result).value);
    }
  }

  lemma CheckTexts()
    ensures CheckText(U.UpToDate) == "gia_aggiornato" && CheckText(U.WaitingAfterFailures) == "commit_fallito_attendo"
    ensures CheckText(U.DocumentationOnly) == "solo_documentazione"
    ensures CheckText(U.UpdateStarted) == "aggiornamento_avviato" && CheckText(U.FetchFailed) == "fetch_fallito"
    ensures CheckText(U.ServiceStopped) == "servizio_fermo"
    ensures CheckText(U.DowngradeRefused) == "retrocessione_rifiutata"
  {
  }

  lemma CheckTextsFind(o: U.CheckOutcome)
    ensures OneOf(Text(CheckText(o)), CHECK_OUTCOMES, CheckText) == Some(o)
  {
    forall p | CheckText(o) == CheckText(p) ensures o == p {
      assert |CheckText(o)| == |CheckText(p)|;
    }
    FoundByText(o, CHECK_OUTCOMES, CheckText);
  }

  lemma StringsOneMore(items: seq<Json>, text: string)
    ensures Strings(items + [Text(text)]) == Strings(items) + [text]
  {
    if items == [] {
      assert items + [Text(text)] == [Text(text)];
    } else {
      StringsOneMore(items[1..], text);
      assert (items + [Text(text)])[1..] == items[1..] + [Text(text)];
    }
  }

  /** The record with some of its other members changed. */
  lemma PhaseAmends(t: Members, name: string, at: string)
    requires Tidy(Object(t)) && name != ""
    ensures var next := Object(t[Fase := Text(name)]);
            Tidy(next) && ReadAttempt(next) == Some(Amended(ReadAttempt(Object(t)).value, Entry(EnterPhase(name), at)))
  {
    hide TextOf, OneOf, Strings, NonBlank;
    NonBlankReads(name);
  }

  lemma SamePhase(t: Members)
    ensures Put(t, Fase, Own(t, Fase)) == t
  {
  }

  lemma WarnAmends(t: Members, text: string, at: string)
    requires Tidy(Object(t))
    ensures WarningsOf(t) == Some(Member(t, Avvisi).items)
    ensures var next := Object(t[Avvisi := List(WarningsOf(t).value + [Text(text)])]);
            Tidy(next) && ReadAttempt(next) == Some(Amended(ReadAttempt(Object(t)).value, Entry(Warn(text), at)))
  {
    hide TextOf, OneOf, Strings;
    StringsOneMore(Member(t, Avvisi).items, text);
  }

  /** In any record that names a commit, the first warning starts the list when there is none. */
  lemma FirstWarning(coerce: Coercion, m: Members, text: string, at: string)
    requires LastRecord(m).Some? && ReadAttempt(Member(m, UltimoTentativo)).Some?
    requires !Truthy(Member(LastRecord(m).value, Avvisi))
    ensures var after := Applied(coerce, m, Warn(text), at);
            && after.Some? && ReadAttempt(Member(after.value, UltimoTentativo)).Some?
            && ReadAttempt(Member(after.value, UltimoTentativo)).value.judged.warnings == [text]
  {
    hide TextOf, OneOf, Strings;
    StringsOneMore([], text);
    assert [] + [Text(text)] == [Text(text)];
    assert Strings([]) == [] by {
      NoStrings();
    }
  }

  lemma NoStrings()
    ensures Strings([]) == []
  {
  }

  lemma EndAmends(t: Members, outcome: string, message: string, at: string)
    requires Tidy(Object(t)) && Ending(outcome).Some?
    ensures var next := Object(t[Esito := Text(outcome)][FinitoIl := Text(at)][Messaggio := OrNull(message)]);
            Tidy(next)
            && ReadAttempt(next) == Some(Amended(ReadAttempt(Object(t)).value, Entry(End(outcome, message), at)))
  {
    hide TextOf, OneOf, Strings, Ending, OrNull, NonBlank;
    EndingReads(outcome);
    OrNullReads(message);
    NonBlankReads(at);
  }

  /** A later command amends a tidy record, or throws and leaves it. */
  lemma AmendsTidy(coerce: Coercion, m: Members, e: Entry)
    requires Tidy(Member(m, UltimoTentativo)) && !Starts(e)
    ensures var record, after := Member(m, UltimoTentativo), Applied(coerce, m, e.command, e.at);
            && (after.None? ==> Amended(ReadAttempt(record).value, e) == ReadAttempt(record).value)
            && (after.Some? ==>
                  && Tidy(Member(after.value, UltimoTentativo))
                  && ReadAttempt(Member(after.value, UltimoTentativo))
                     == Some(Amended(ReadAttempt(record).value, e)))
  {
    hide TextOf, OneOf, Strings, NonBlank, Ending, ReadAttempt, WarningsOf, Tidy, OrNull, CheckEnding, Begun;
    RecordIsObject(m);
    var t := Member(m, UltimoTentativo).members;
    match e.command {
      case EnterPhase(name) =>
        SamePhase(t);
        if name != "" {
          PhaseAmends(t, name, e.at);
        }
      case Warn(text) => WarnAmends(t, text, e.at);
      case End(outcome, message) =>
        if Ending(outcome).Some? {
          EndAmends(t, outcome, message, e.at);
        }
      case _ =>
    }
  }

  lemma RecordIsObject(m: Members)
    requires Tidy(Member(m, UltimoTentativo))
    ensures Member(m, UltimoTentativo).Object? && ReadAttempt(Member(m, UltimoTentativo)).Some?
    ensures LastRecord(m) == Some(Member(m, UltimoTentativo).members)
  {
  }

  lemma StoredTidy(j: Json)
    requires Tidy(j)
    ensures Tidy(Stored(j)) && ReadAttempt(Stored(j)) == ReadAttempt(j)
  {
    hide TextOf, ReadAttempt;
    StoredMember(j, Commit);
    StoredMember(j, Avvisi);
    StoredText(Member(j.members, Commit));
    StoredAttempt(j);
  }

  /** The value of the last attempt in the file. */
  function RecordIn(file: Option<Json>): Json {
    Member(Loaded(file), UltimoTentativo)
  }

  lemma AmendsFile(coerce: Coercion, file: Option<Json>, e: Entry)
    requires Tidy(RecordIn(file)) && !Starts(e)
    ensures var next := RecordIn(Next(coerce, file, e));
            Tidy(next) && ReadAttempt(next) == Some(Amended(ReadAttempt(RecordIn(file)).value, e))
  {
    hide Tidy, ReadAttempt, Applied, Loaded, Stored, Next, Amended, Member;
    var m := Loaded(file);
    AmendsTidy(coerce, m, e);
    NextReads(coerce, file, e);
    var after := Applied(coerce, m, e.command, e.at);
    if after.Some? {
      StoredTidy(Member(after.value, UltimoTentativo));
    } else {
      RecordIsObject(m);
    }
  }

  /** What `inizio` leaves of the record. */
  lemma BeginsTidy(coerce: Coercion, file: Option<Json>, e: Entry)
    requires Starts(e) && Trim(e.command.commit) != ""
    ensures var next := RecordIn(Next(coerce, file, e));
            && Tidy(next)
            && ReadAttempt(next) == Some(Told([e], 0, 1, ReadAttempt(next).value.tries))
  {
    hide Trim, Loaded, Stored, Next;
    var begun := Object(Begun(coerce, LastRecord(Loaded(file)), e.command.commit, e.command.from, e.at));
    NextReads(coerce, file, e);
    BegunReads(coerce, LastRecord(Loaded(file)), e);
    StoredTidy(begun);
  }

  lemma BegunReads(coerce: Coercion, t: Option<Members>, e: Entry)
    requires Starts(e) && Trim(e.command.commit) != ""
    ensures var begun := Object(Begun(coerce, t, e.command.commit, e.command.from, e.at));
            && Tidy(begun) && ReadAttempt(begun) == Some(Told([e], 0, 1, ReadAttempt(begun).value.tries))
  {
    hide Trim, OneMore, ToNumber, SameCommitAgain, OrNull, OneOf;
    OrNullReads(e.command.from);
    AttemptOutcomesReadBack(U.Running);
    assert AttemptText(U.Running) == "in_corso";
    assert TextOf(Null) == None;
  }

  /**
   * After `inizio`, in any run and from any file, the attempt read is the one the later commands tell:
   * its start, the last phase entered, the last outcome with its message and time, every warning.
   */
  lemma {:induction false} AttemptIsTold(coerce: Coercion, file: Option<Json>, run: seq<Entry>, i: nat, n: nat)
    requires i < n <= |run| && Starts(run[i]) && Trim(run[i].command.commit) != "" && NoStart(run, i, n)
    ensures var begun, now := Reading(FileAt(coerce, file, run, i + 1)), Reading(FileAt(coerce, file, run, n));
            && begun.lastAttempt.Some?
            && now.lastAttempt == Some(Told(run, i, n, begun.lastAttempt.value.tries))
            && Tidy(RecordIn(FileAt(coerce, file, run, n)))
  {
    hide Trim, Tidy, ReadAttempt, Next, Told, Reading, Loaded, Amended, RecordIn;
    var at, begun := FileAt(coerce, file, run, n), FileAt(coerce, file, run, i + 1);
    RecordIsRead(at);
    RecordIsRead(begun);
    BeginsTidy(coerce, FileAt(coerce, file, run, i), run[i]);
    if n == i + 1 {
      ToldAlone(run, i, ReadAttempt(RecordIn(begun)).value.tries);
    } else {
      AttemptIsTold(coerce, file, run, i, n - 1);
      RecordIsRead(FileAt(coerce, file, run, n - 1));
      AmendsFile(coerce, FileAt(coerce, file, run, n - 1), run[n - 1]);
      ToldAmended(run, i, n - 1, ReadAttempt(RecordIn(begun)).value.tries);
    }
  }

  lemma RecordIsRead(file: Option<Json>)
    ensures Reading(file).lastAttempt == ReadAttempt(RecordIn(file))
    ensures Tidy(RecordIn(file)) ==> ReadAttempt(RecordIn(file)).Some?
  {
    hide ReadAttempt, Loaded, Reading, Tidy;
    ReadingIs(file);
    if Tidy(RecordIn(file)) {
      RecordIsObject(Loaded(file));
    }
  }

  lemma ToldAlone(run: seq<Entry>, i: nat, tries: Option<real>)
    requires i < |run| && Starts(run[i])
    ensures Told(run, i, i + 1, tries) == Told([run[i]], 0, 1, tries)
  {
  }

  // ---------- the verdict on the attempt ----------

  /** The verdict of the file for a request. */
  function Verdict(file: Option<Json>, requestedAt: string): U.Progress {
    U.Judge(Judged(Reading(file)), requestedAt)
  }

  /**
   * From an `inizio` no earlier than the request, and until the next one, the verdict is "going", in
   * the last phase entered, exactly until a `fine`; then it is what the last `fine` says, with every
   * warning given.
   */
  lemma VerdictFollowsAttempt(coerce: Coercion, file: Option<Json>, run: seq<Entry>, i: nat, n: nat,
                              requestedAt: string)
    requires i < n <= |run| && Starts(run[i]) && Trim(run[i].command.commit) != "" && NoStart(run, i, n)
    requires Trim(run[i].at) != "" && U.AtOrAfter(run[i].at, requestedAt)
    ensures var verdict := Verdict(FileAt(coerce, file, run, n), requestedAt);
            && (verdict.Going? <==> forall m: nat :: i < m < n ==> !Closes(run[m]))
            && (verdict.Going? ==> verdict.phase == NonBlank(LastPhase(run, i, n)))
            && (verdict.Done? ==>
                  verdict.note == if WarningsIn(run, i, n) != [] then Some(WarningsIn(run, i, n)) else None)
            && forall k: nat :: i < k < n && Closes(run[k]) && (forall m: nat :: k < m < n ==> !Closes(run[m])) ==>
                 && (verdict.Done? <==> run[k].command.outcome == "riuscito")
                 && (verdict.NotDone? <==> run[k].command.outcome != "riuscito")
  {
    hide Trim, Reading, FileAt, Tidy, RecordIn, LastPhase, WarningsIn, U.Before, Ending;
    AttemptIsTold(coerce, file, run, i, n);
    var k := LastClose(run, i, n);
    TrimNotEmpty(run[i].at);
    if k.Some? {
      EndingIs(run[k.value].command.outcome);
    }
  }

  lemma TrimNotEmpty(t: string)
    requires Trim(t) != ""
    ensures t != "" && NonBlank(t) == Some(t)
  {
  }

  lemma EndingIs(outcome: string)
    requires Ending(outcome).Some?
    ensures Ending(outcome).value in ENDINGS
    ensures Ending(outcome) == Some(U.Succeeded) <==> outcome == "riuscito"
  {
  }

  /** The last attempt begun among the first `n` commands. */
  function LastStart(run: seq<Entry>, n: nat): (i: Option<nat>)
    requires n <= |run|
    ensures i.Some? ==> i.value < n && Starts(run[i.value]) && NoStart(run, i.value, n)
    ensures forall m: nat :: m < n && (i.Some? ==> i.value < m) ==> !Starts(run[m])
  {
    if n == 0 then None else if Starts(run[n - 1]) then Some(n - 1) else LastStart(run, n - 1)
  }

  /** No time is blank: every command is given one, as the server prints it. */
  predicate Timed(run: seq<Entry>) {
    forall k :: 0 <= k < |run| ==> Trim(run[k].at) != ""
  }

  /** The clock never goes back. */
  predicate Monotone(run: seq<Entry>) {
    forall k, m :: 0 <= k < m < |run| ==> U.AtOrAfter(run[m].at, run[k].at)
  }

  /** No commit is made of white space alone. */
  predicate RealCommits(run: seq<Entry>) {
    forall k :: 0 <= k < |run| && Starts(run[k]) ==> Trim(run[k].command.commit) != ""
  }

  lemma LaterIsLater(a: string, b: string, requestedAt: string)
    requires U.AtOrAfter(a, requestedAt) && U.AtOrAfter(b, a)
    ensures U.AtOrAfter(b, requestedAt)
  {
    if U.Before(b, requestedAt) {
      U.BeforeIsTotal(a, b);
      if U.Before(a, b) {
        U.BeforeIsTransitive(a, b, requestedAt);
      }
    }
  }

  /** Once an attempt began after the request, it is never again waited for nor found without news. */
  lemma AnsweredOnceBegun(coerce: Coercion, file: Option<Json>, run: seq<Entry>, i: nat, n: nat, requestedAt: string)
    requires i < n <= |run| && Starts(run[i]) && U.AtOrAfter(run[i].at, requestedAt)
    requires Timed(run) && Monotone(run) && RealCommits(run)
    ensures var verdict := Verdict(FileAt(coerce, file, run, n), requestedAt); !verdict.Waiting? && !verdict.NothingNew?
  {
    hide Verdict, FileAt, U.Before, Trim, LastPhase, WarningsIn, U.AtOrAfter, Closes;
    var last := LastStart(run, n).value;
    if last != i {
      LaterIsLater(run[i].at, run[last].at, requestedAt);
    }
    VerdictFollowsAttempt(coerce, file, run, last, n, requestedAt);
    var k := LastClose(run, last, n);
  }

  // ---------- the last check ----------

  predicate Checks(e: Entry) {
    e.command.Checked? && CheckEnding(e.command.result).Some?
  }

  function LastCheck(run: seq<Entry>, n: nat): (k: Option<nat>)
    requires n <= |run|
    ensures k.Some? ==> k.value < n && Checks(run[k.value])
    ensures forall m: nat :: m < n && (k.Some? ==> k.value < m) ==> !Checks(run[m])
  {
    if n == 0 then None else if Checks(run[n - 1]) then Some(n - 1) else LastCheck(run, n - 1)
  }

  function ToldCheck(e: Entry): Check
    requires Checks(e)
  {
    Check(U.Check(e.at, CheckEnding(e.command.result).value), e.command.origin == "interfaccia")
  }

  lemma StepChecks(coerce: Coercion, file: Option<Json>, e: Entry)
    requires Trim(e.at) != ""
    ensures Reading(Next(coerce, file, e)).lastCheck
            == if Checks(e) then Some(ToldCheck(e)) else Reading(file).lastCheck
  {
    hide Trim, Loaded, Reading, Next, Stored, Applied, ReadCheck, CheckEnding;
    NextReads(coerce, file, e);
    ReadingIs(file);
    var m := Loaded(file);
    if Checks(e) {
      CheckApplied(coerce, m, e);
    } else {
      KeepsCheck(coerce, m, e);
    }
  }

  lemma CheckApplied(coerce: Coercion, m: Members, e: Entry)
    requires Checks(e) && Trim(e.at) != ""
    ensures var after := Applied(coerce, m, e.command, e.at);
            after.Some? && ReadCheck(Member(after.value, UltimoControllo)) == Some(ToldCheck(e))
  {
    hide Trim, OneOf, CheckEnding, LastRecord;
    CheckEndingReads(e.command.result);
    TrimNotEmpty(e.at);
  }

  lemma KeepsCheck(coerce: Coercion, m: Members, e: Entry)
    requires !Checks(e)
    ensures var after := Applied(coerce, m, e.command, e.at);
            after.Some? ==> Member(after.value, UltimoControllo) == Member(m, UltimoControllo)
  {
    hide Begun, LastRecord, WarningsOf, Ending;
  }

  /** The check read is the one of the last `controllo`, from any file. */
  lemma {:induction false} CheckIsLast(coerce: Coercion, file: Option<Json>, run: seq<Entry>, n: nat)
    requires n <= |run| && Timed(run)
    ensures var k := LastCheck(run, n);
            Reading(FileAt(coerce, file, run, n)).lastCheck
            == if k.Some? then Some(ToldCheck(run[k.value])) else Reading(file).lastCheck
  {
    hide Reading, Next, Checks, ToldCheck, Trim;
    if n > 0 {
      CheckIsLast(coerce, file, run, n - 1);
      StepChecks(coerce, FileAt(coerce, file, run, n - 1), run[n - 1]);
    }
  }

  // ---------- from the commands to the verdict ----------

  /** Without an attempt in the file, only `inizio` makes one. */
  lemma {:induction false} NoAttemptBeforeStart(coerce: Coercion, file: Option<Json>, run: seq<Entry>, n: nat)
    requires n <= |run| && !Truthy(RecordIn(file)) && forall m: nat :: m < n ==> !Starts(run[m])
    ensures !Truthy(RecordIn(FileAt(coerce, file, run, n)))
  {
    hide Truthy, RecordIn, Next;
    if n > 0 {
      NoAttemptBeforeStart(coerce, file, run, n - 1);
      StepMakesNone(coerce, FileAt(coerce, file, run, n - 1), run[n - 1]);
    }
  }

  lemma StepMakesNone(coerce: Coercion, file: Option<Json>, e: Entry)
    requires !Truthy(RecordIn(file)) && !Starts(e)
    ensures !Truthy(RecordIn(Next(coerce, file, e)))
  {
    hide Loaded, Stored, Begun, Ended, WarningsOf, Ending, CheckEnding, Next;
    NextReads(coerce, file, e);
    StoredFalsy(RecordIn(file));
  }

  lemma StoredFalsy(j: Json)
    requires !Truthy(j)
    ensures !Truthy(Stored(j)) && ReadAttempt(j).None?
  {
  }

  /**
   * From the commands to the answer, for every run that starts without a file: the verdict for a
   * request is that of the last attempt begun, if no earlier than the request, as its commands tell
   * it; else that of the last check, if no earlier; else to wait.
   */
  lemma VerdictOfRun(coerce: Coercion, run: seq<Entry>, n: nat, requestedAt: string)
    requires n <= |run| && Timed(run) && RealCommits(run)
    ensures var i, k := LastStart(run, n), LastCheck(run, n);
            Verdict(FileAt(coerce, None, run, n), requestedAt)
            == if i.Some? && U.AtOrAfter(run[i.value].at, requestedAt)
               then U.JudgeAttempt(Told(run, i.value, n, None).judged)
               else if k.Some? && U.AtOrAfter(run[k.value].at, requestedAt)
               then U.JudgeCheck(ToldCheck(run[k.value]).judged)
               else U.Waiting
  {
    hide FileAt, Trim, Reading, Tidy, RecordIn, Truthy, U.AtOrAfter, LastPhase, WarningsIn, LastClose, U.JudgeAttempt,
         U.JudgeCheck;
    var at := FileAt(coerce, None, run, n);
    CheckIsLast(coerce, None, run, n);
    NothingInNoFile();
    RecordIsRead(at);
    var i := LastStart(run, n);
    if i.Some? {
      AttemptIsTold(coerce, None, run, i.value, n);
      TrimNotEmpty(run[i.value].at);
    } else {
      NoAttemptBeforeStart(coerce, None, run, n);
      StoredFalsy(RecordIn(at));
    }
  }

  lemma NothingInNoFile()
    ensures Reading(None) == EMPTY && !Truthy(RecordIn(None))
  {
  }

  // ---------- the commit that runs ----------

  /** The command records a success: `avviato`, or `fine riuscito` on the attempt in the file. */
  predicate Succeeds(file: Option<Json>, e: Entry) {
    || (e.command.Launched? && e.command.launched != "")
    || (e.command.End? && e.command.outcome == "riuscito" && LastRecord(Loaded(file)).Some?)
  }

  /** The commit of that success: the one named, or the one attempted. */
  function SucceededCommit(file: Option<Json>, e: Entry): Option<string>
    requires Succeeds(file, e)
  {
    if e.command.Launched? then NonBlank(e.command.launched)
    else TextOf(Member(LastRecord(Loaded(file)).value, Commit))
  }

  function ToldSuccess(file: Option<Json>, e: Entry): Option<Success>
    requires Succeeds(file, e)
  {
    var commit := SucceededCommit(file, e);
    if commit.None? then None
    else Some(Success(commit.value, e.at, if e.command.Launched? then NonBlank(e.command.note) else None))
  }

  lemma EndedSuccess(m: Members, t: Members, message: string, at: string)
    requires Trim(at) != ""
    ensures var after := Ended(m, t, "riuscito", message, at); var commit := TextOf(Member(t, Commit));
            && TextOf(Member(after, CommitAvviato)) == commit
            && ReadSuccess(Member(after, UltimoSuccesso))
               == if commit.None? then None else Some(Success(commit.value, at, None))
  {
    hide Trim;
    assert TextOf(Null) == None;
  }

  lemma RiuscitoEnds()
    ensures Ending("riuscito") == Some(U.Succeeded)
  {
    assert AttemptText(U.Succeeded) == "riuscito";
  }

  lemma StepSucceeds(coerce: Coercion, file: Option<Json>, e: Entry)
    requires Trim(e.at) != ""
    ensures var before, after := Reading(file), Reading(Next(coerce, file, e));
            if Succeeds(file, e)
            then after.startedCommit == SucceededCommit(file, e) && after.lastSuccess == ToldSuccess(file, e)
            else after.startedCommit == before.startedCommit && after.lastSuccess == before.lastSuccess
  {
    hide Trim, Loaded, Reading, Next, Stored, Applied, LastRecord, TextOf, ReadSuccess;
    NextReads(coerce, file, e);
    ReadingIs(file);
    var m := Loaded(file);
    if Succeeds(file, e) {
      if e.command.Launched? {
        LaunchApplied(coerce, m, e);
        NonBlankReads(e.command.launched);
        LaunchedReads(m, e.command.launched, e.command.note, e.at);
      } else {
        EndApplied(coerce, m, e);
        EndedSuccess(m, LastRecord(m).value, e.command.message, e.at);
      }
    } else {
      KeepsSuccess(coerce, m, e);
    }
  }

  lemma LaunchApplied(coerce: Coercion, m: Members, e: Entry)
    requires e.command.Launched? && e.command.launched != ""
    ensures var after := Applied(coerce, m, e.command, e.at);
            && after.Some? && Member(after.value, CommitAvviato) == Text(e.command.launched)
            && Member(after.value, UltimoSuccesso)
               == Object(map[Commit := Text(e.command.launched), Il := Text(e.at), Nota := OrNull(e.command.note)])
  {
    hide LastRecord, OrNull;
  }

  lemma EndApplied(coerce: Coercion, m: Members, e: Entry)
    requires e.command.End? && e.command.outcome == "riuscito" && LastRecord(m).Some?
    ensures Applied(coerce, m, e.command, e.at)
            == Some(Ended(m, LastRecord(m).value, "riuscito", e.command.message, e.at))
  {
    hide LastRecord, Ended, Ending;
    RiuscitoEnds();
  }

  lemma KeepsSuccess(coerce: Coercion, m: Members, e: Entry)
    requires !(e.command.Launched? && e.command.launched != "")
    requires !(e.command.End? && e.command.outcome == "riuscito" && LastRecord(m).Some?)
    ensures var after := Applied(coerce, m, e.command, e.at);
            after.Some? ==>
              && Member(after.value, CommitAvviato) == Member(m, CommitAvviato)
              && Member(after.value, UltimoSuccesso) == Member(m, UltimoSuccesso)
  {
    hide LastRecord, Begun, WarningsOf, Ending, CheckEnding, Ended;
    if e.command.End? && LastRecord(m).Some? {
      EndedOtherwise(m, LastRecord(m).value, e.command.outcome, e.command.message, e.at);
    }
  }

  lemma EndedOtherwise(m: Members, t: Members, outcome: string, message: string, at: string)
    requires outcome != "riuscito"
    ensures var after := Ended(m, t, outcome, message, at);
            Member(after, CommitAvviato) == Member(m, CommitAvviato)
            && Member(after, UltimoSuccesso) == Member(m, UltimoSuccesso)
  {
  }

  lemma LaunchedReads(m: Members, commit: string, note: string, at: string)
    requires Trim(at) != ""
    ensures var success := Object(map[Commit := Text(commit), Il := Text(at), Nota := OrNull(note)]);
            ReadSuccess(success) == if NonBlank(commit).None? then None else Some(Success(commit, at, NonBlank(note)))
    ensures NonBlank(commit).Some? ==> NonBlank(commit) == Some(commit)
  {
    hide Trim;
    OrNullReads(note);
  }

  /** The last success among the first `n` commands. */
  function LastSuccess(coerce: Coercion, file: Option<Json>, run: seq<Entry>, n: nat): (k: Option<nat>)
    requires n <= |run|
    ensures k.Some? ==> k.value < n && Succeeds(FileAt(coerce, file, run, k.value), run[k.value])
    ensures forall m: nat :: m < n && (k.Some? ==> k.value < m) ==> !Succeeds(FileAt(coerce, file, run, m), run[m])
  {
    if n == 0 then None
    else if Succeeds(FileAt(coerce, file, run, n - 1), run[n - 1]) then Some(n - 1)
    else LastSuccess(coerce, file, run, n - 1)
  }

  /**
   * The started commit and the last success are always those of the last command that recorded one,
   * and those the file began with when none did.
   */
  lemma {:induction false} StartedIsLastSuccess(coerce: Coercion, file: Option<Json>, run: seq<Entry>, n: nat)
    requires n <= |run| && Timed(run)
    ensures var now, k := Reading(FileAt(coerce, file, run, n)), LastSuccess(coerce, file, run, n);
            && (k.None? ==>
                  now.startedCommit == Reading(file).startedCommit && now.lastSuccess == Reading(file).lastSuccess)
            && (k.Some? ==>
                  var was := FileAt(coerce, file, run, k.value);
                  && now.startedCommit == SucceededCommit(was, run[k.value])
                  && now.lastSuccess == ToldSuccess(was, run[k.value]))
  {
    hide Reading, Next, Succeeds, SucceededCommit, ToldSuccess, Trim;
    if n > 0 {
      StartedIsLastSuccess(coerce, file, run, n - 1);
      StepSucceeds(coerce, FileAt(coerce, file, run, n - 1), run[n - 1]);
    }
  }

  /** `fine riuscito` on an attempt of the run succeeds with the commit of its `inizio`. */
  lemma SuccessIsOfTheAttempt(coerce: Coercion, file: Option<Json>, run: seq<Entry>, i: nat, n: nat)
    requires i < n < |run| && Starts(run[i]) && Trim(run[i].command.commit) != "" && NoStart(run, i, n)
    requires run[n].command.End? && run[n].command.outcome == "riuscito"
    ensures var at := FileAt(coerce, file, run, n);
            Succeeds(at, run[n]) && SucceededCommit(at, run[n]) == Some(run[i].command.commit)
  {
    hide Trim, FileAt, Reading, Loaded, Starts, NoStart;
    var at := FileAt(coerce, file, run, n);
    AttemptIsTold(coerce, file, run, i, n);
    RecordIsRead(at);
    RecordIsObject(Loaded(at));
  }

  // ---------- the count of attempts ----------

  /** The attempts begun from position `a` on. */
  function Begins(run: seq<Entry>, a: nat, n: nat): nat
    requires a <= n <= |run|
  {
    if n == a then 0 else Begins(run, a, n - 1) + if Starts(run[n - 1]) then 1 else 0
  }

  /** The attempt read is of the commit and has not succeeded. */
  predicate FailingOn(s: Status, commit: string) {
    s.lastAttempt.Some? && s.lastAttempt.value.commit == commit
    && s.lastAttempt.value.judged.outcome != Some(U.Succeeded)
  }

  lemma SameCommitIsRead(m: Members, commit: string)
    requires Trim(commit) != ""
    ensures SameCommitAgain(LastRecord(m), commit) ==> FailingOn(Interpret(Object(m)), commit)
    ensures Tidy(Member(m, UltimoTentativo)) && FailingOn(Interpret(Object(m)), commit) ==>
              SameCommitAgain(LastRecord(m), commit)
  {
    hide Trim, Strings, ReadSuccess, ReadCheck;
    var record := Member(m, UltimoTentativo);
    IndexedAway(record);
    if record.Object? {
      SucceededIsRead(Member(record.members, Esito));
    }
  }

  /** A record that is not an object has no commit. */
  lemma IndexedAway(j: Json)
    ensures !j.Object? ==> Commit !in Spread(j)
  {
    if j.List? {
      IndexedKeys(j.items);
    } else if j.Text? {
      IndexedKeys(Characters(j.text));
    }
  }

  lemma SucceededIsRead(j: Json)
    ensures OneOf(j, ATTEMPT_OUTCOMES, AttemptText) == Some(U.Succeeded) <==> j == Text("riuscito")
  {
    hide OneOf;
    assert AttemptText(U.Succeeded) == "riuscito";
    FoundHasText(j, ATTEMPT_OUTCOMES, AttemptText);
    AttemptOutcomesReadBack(U.Succeeded);
  }

  /** What `inizio` counts, from any file: one for a new commit, else one more than the file says. */
  lemma StepCounts(coerce: Coercion, file: Option<Json>, e: Entry)
    requires Starts(e) && Trim(e.command.commit) != ""
    ensures var before, after := Reading(file), Reading(Next(coerce, file, e));
            && after.lastAttempt.Some? && after.lastAttempt.value.commit == e.command.commit
            && after.lastAttempt.value.judged.outcome == Some(U.Running)
            && (!FailingOn(before, e.command.commit) ==> after.lastAttempt.value.tries == Some(1.0))
            && (Tidy(RecordIn(file)) && FailingOn(before, e.command.commit) && before.lastAttempt.value.tries.Some? ==>
                  var count := before.lastAttempt.value.tries.value;
                  after.lastAttempt.value.tries == Some(if count == 0.0 then 2.0 else count + 1.0))
  {
    hide Trim, Loaded, Reading, Next, Stored, OneOf, TextOf, Strings, SameCommitAgain, FailingOn, Ending;
    NextReads(coerce, file, e);
    LoadedReads(file);
    SameCommitIsRead(Loaded(file), e.command.commit);
    BegunReads(coerce, LastRecord(Loaded(file)), e);
    CountedReads(coerce, Loaded(file), e);
    RecordIsRead(file);
  }

  lemma CountedReads(coerce: Coercion, m: Members, e: Entry)
    requires Starts(e) && Trim(e.command.commit) != ""
    ensures var begun := Object(Begun(coerce, LastRecord(m), e.command.commit, e.command.from, e.at));
            var t := ReadAttempt(Member(m, UltimoTentativo));
            ReadAttempt(begun).Some?
            && (!SameCommitAgain(LastRecord(m), e.command.commit) ==> ReadAttempt(begun).value.tries == Some(1.0))
            && (SameCommitAgain(LastRecord(m), e.command.commit) && t.Some? && t.value.tries.Some? ==>
                  ReadAttempt(begun).value.tries
                  == Some(if t.value.tries.value == 0.0 then 2.0 else t.value.tries.value + 1.0))
  {
    hide Trim, OneOf, Strings, OrNull;
  }

  /** The attempt read is of the commit, has not succeeded, and is counted so. */
  predicate Counted(file: Option<Json>, commit: string, count: nat) {
    var s := Reading(file);
    Tidy(RecordIn(file)) && FailingOn(s, commit) && s.lastAttempt.value.tries == Some(count as real)
  }

  lemma AmendedStaysCounted(coerce: Coercion, file: Option<Json>, e: Entry, commit: string, count: nat)
    requires Counted(file, commit, count) && !Starts(e)
    requires !(e.command.End? && e.command.outcome == "riuscito")
    ensures Counted(Next(coerce, file, e), commit, count)
  {
    hide Reading, Tidy, ReadAttempt, RecordIn, Next, NonBlank, Ending;
    RecordIsRead(file);
    RecordIsRead(Next(coerce, file, e));
    AmendsFile(coerce, file, e);
    if e.command.End? && Ending(e.command.outcome).Some? {
      EndingIs(e.command.outcome);
    }
  }

  lemma BegunIsCounted(coerce: Coercion, file: Option<Json>, e: Entry, count: nat)
    requires Starts(e) && Trim(e.command.commit) != ""
    requires if count == 0 then !FailingOn(Reading(file), e.command.commit)
             else Counted(file, e.command.commit, count)
    ensures Counted(Next(coerce, file, e), e.command.commit, count + 1)
  {
    hide Reading, Tidy, ReadAttempt, RecordIn, Next, Trim;
    StepCounts(coerce, file, e);
    BeginsTidy(coerce, file, e);
  }

  /**
   * The count of tries is the number of attempts begun on a commit since it was first begun, or begun
   * again after a success, for as long as no other commit is begun and none succeeds; from any file.
   */
  lemma {:induction false} TriesCountAttempts(coerce: Coercion, file: Option<Json>, run: seq<Entry>, a: nat, n: nat,
                                              commit: string)
    requires a < n <= |run| && Starts(run[a]) && Trim(commit) != ""
    requires !FailingOn(Reading(FileAt(coerce, file, run, a)), commit)
    requires forall k: nat :: a <= k < n && Starts(run[k]) ==> run[k].command.commit == commit
    requires forall k: nat :: a <= k < n ==> !(run[k].command.End? && run[k].command.outcome == "riuscito")
    ensures Counted(FileAt(coerce, file, run, n), commit, Begins(run, a, n))
    decreases n
  {
    hide Reading, Counted, Next, Trim, FailingOn;
    var before, e := FileAt(coerce, file, run, n - 1), run[n - 1];
    if n > a + 1 {
      TriesCountAttempts(coerce, file, run, a, n - 1, commit);
      BeginsSome(run, a, n - 1);
    }
    if Starts(e) {
      BegunIsCounted(coerce, before, e, Begins(run, a, n - 1));
    } else {
      AmendedStaysCounted(coerce, before, e, commit, Begins(run, a, n - 1));
    }
  }

  lemma {:induction false} BeginsSome(run: seq<Entry>, a: nat, n: nat)
    requires a < n <= |run| && Starts(run[a])
    ensures Begins(run, a, n) > 0
  {
    if n > a + 1 {
      BeginsSome(run, a, n - 1);
    }
  }
}
