/** Broker subjects: internal/platform/events/events.go, the dead-letter subject of
    consumer.go, and the startup checks of config.go that keep the two subtrees apart. */
module Subjects {
  import opened Results

  // ---------- dot-delimited tokens ----------

  /** strings.Split(s, "."). */
  function Tokens(s: string): (ts: seq<string>)
    ensures ts != []
  {
    if s == "" then [""]
    else
      var rest := Tokens(s[1..]);
      if s[0] == '.' then [""] + rest else [[s[0]] + rest[0]] + rest[1..]
  }

  function Join(ts: seq<string>): string
    requires ts != []
  {
    if |ts| == 1 then ts[0] else ts[0] + "." + Join(ts[1..])
  }

  lemma {:induction false} JoinUndoesTokens(s: string)
    ensures Join(Tokens(s)) == s
  {
    if s != "" {
      var rest := Tokens(s[1..]);
      JoinUndoesTokens(s[1..]);
      assert s == [s[0]] + s[1..];
      if s[0] == '.' {
        JoinWithEmpty(rest);
      } else {
        JoinWithChar(s[0], rest);
      }
    }
  }

  lemma JoinWithEmpty(rest: seq<string>)
    requires rest != []
    ensures Join([""] + rest) == "." + Join(rest)
  {
    assert ([""] + rest)[1..] == rest;
    assert "" + "." + Join(rest) == "." + Join(rest);
  }

  lemma JoinWithChar(c: char, rest: seq<string>)
    requires rest != []
    ensures Join([[c] + rest[0]] + rest[1..]) == [c] + Join(rest)
  {
    var ts := [[c] + rest[0]] + rest[1..];
    assert ts[1..] == rest[1..];
    if |rest| > 1 {
      assert [c] + rest[0] + "." + Join(rest[1..]) == [c] + (rest[0] + "." + Join(rest[1..]));
    }
  }

  lemma {:induction false} DotFreeIsOneToken(s: string)
    requires '.' !in s
    ensures Tokens(s) == [s]
  {
    if s != "" {
      DotFreeIsOneToken(s[1..]);
      assert s == [s[0]] + s[1..];
    }
  }

  lemma {:induction false} TokensOfDotted(a: string, b: string)
    ensures Tokens(a + "." + b) == Tokens(a) + Tokens(b)
  {
    if a == "" {
      assert (a + "." + b)[1..] == b;
    } else {
      assert (a + "." + b)[1..] == a[1..] + "." + b;
      TokensOfDotted(a[1..], b);
    }
  }

  lemma {:induction false} JoinOfConcat(a: seq<string>, b: seq<string>)
    requires a != [] && b != []
    ensures Join(a + b) == Join(a) + "." + Join(b)
  {
    if |a| == 1 {
      assert (a + b)[1..] == b;
    } else {
      assert (a + b)[1..] == a[1..] + b;
      JoinOfConcat(a[1..], b);
      assert Join(a) + "." + Join(b) == a[0] + "." + (Join(a[1..]) + "." + Join(b));
    }
  }

  // ---------- prefixed ----------

  /** config.prefixed. */
  predicate Prefixed(subject: string, prefix: string) {
    subject == prefix || prefix + "." <= subject
  }

  /** The string test means what it is for: the prefix's tokens begin the subject's. */
  lemma PrefixedIsTokenPrefix(subject: string, prefix: string)
    ensures Prefixed(subject, prefix) <==> Tokens(prefix) <= Tokens(subject)
  {
    if prefix + "." <= subject {
      var rest := subject[|prefix| + 1..];
      assert subject == prefix + "." + rest;
      TokensOfDotted(prefix, rest);
    }
    if Tokens(prefix) <= Tokens(subject) {
      var rest := Tokens(subject)[|Tokens(prefix)|..];
      assert Tokens(subject) == Tokens(prefix) + rest;
      JoinUndoesTokens(prefix);
      JoinUndoesTokens(subject);
      if rest == [] {
        assert Tokens(subject) == Tokens(prefix);
      } else {
        JoinOfConcat(Tokens(prefix), rest);
        assert subject == prefix + "." + Join(rest);
      }
    }
  }

  // ---------- the consumer's filter and the dead-letter loop ----------

  /** NATS delivers a subject to the filter `prefix.>` when the prefix's tokens begin it and
      at least one token follows. */
  predicate MatchesFilter(prefix: string, subject: string) {
    Tokens(prefix) < Tokens(subject)
  }

  function DeadLetterSubject(dlqPrefix: string, subject: string): string {
    dlqPrefix + "." + subject
  }

  /** The filter's prefix begins the dead letter of that prefix. */
  predicate Loops(prefix: string, dlqPrefix: string) {
    Prefixed(DeadLetterSubject(dlqPrefix, prefix), prefix)
  }

  /** The exact condition for the dead-letter loop: the dead letter of a received message
      comes back to the consumer that gave up on it if and only if the settings loop. That
      depends on the two prefixes alone, so it is the same for every message, and for the
      dead letters of dead letters. */
  lemma DeadLetterLoop(prefix: string, dlqPrefix: string, subject: string)
    requires MatchesFilter(prefix, subject)
    ensures MatchesFilter(prefix, DeadLetterSubject(dlqPrefix, subject))
            <==> Loops(prefix, dlqPrefix)
  {
    TokensOfDotted(dlqPrefix, subject);
    TokensOfDotted(dlqPrefix, prefix);
    PrefixedIsTokenPrefix(DeadLetterSubject(dlqPrefix, prefix), prefix);
    var P, D, S := Tokens(prefix), Tokens(dlqPrefix), Tokens(subject);
    assert S == P + S[|P|..];
    assert D + S == (D + P) + S[|P|..];
    assert P <= D + S <==> P <= D + P;
  }

  /** The check validateNATS makes refuses only settings that do loop. */
  lemma RefusedSettingsLoop(prefix: string, dlqPrefix: string)
    requires Prefixed(dlqPrefix, prefix)
    ensures Loops(prefix, dlqPrefix)
  {
    PrefixedIsTokenPrefix(dlqPrefix, prefix);
    TokensOfDotted(dlqPrefix, prefix);
    PrefixedIsTokenPrefix(DeadLetterSubject(dlqPrefix, prefix), prefix);
  }

  /** Settings it accepts are free of the loop unless the consumer's prefix itself begins
      with the dead-letter prefix. */
  lemma AcceptedSettingsDoNotLoop(prefix: string, dlqPrefix: string, subject: string)
    requires MatchesFilter(prefix, subject)
    requires !Prefixed(dlqPrefix, prefix) && !Prefixed(prefix, dlqPrefix)
    ensures !MatchesFilter(prefix, DeadLetterSubject(dlqPrefix, subject))
  {
    var P, D := Tokens(prefix), Tokens(dlqPrefix);
    DeadLetterLoop(prefix, dlqPrefix, subject);
    PrefixedIsTokenPrefix(dlqPrefix, prefix);
    PrefixedIsTokenPrefix(prefix, dlqPrefix);
    TokensOfDotted(dlqPrefix, prefix);
    PrefixedIsTokenPrefix(DeadLetterSubject(dlqPrefix, prefix), prefix);
    assert |P| <= |D| ==> (D + P)[..|P|] == D[..|P|];
    assert |D| <= |P| ==> (D + P)[..|P|][..|D|] == D;
  }

  // ---------- the startup checks ----------

  /** The settings validateNATS reads; durations in one unit. */
  datatype Settings = Settings(
    url: string, stream: string, subjectPrefix: string, dlqSubjectPrefix: string, consumer: string,
    duplicateWindow: int, streamMaxAge: int, maxDeliver: int, ackWait: int,
    pollInterval: int)

  datatype ConfigError =
    | EmptyName(which: nat) | BadName(which: nat) | DlqInsideFilter
    | WindowNotPositive | WindowTooShort | MaxAgeNotPositive | MaxDeliverNotPositive | AckWaitNotPositive

  predicate IsSpace(c: char) {
    c == ' ' || c == '\t' || c == '\r' || c == '\n'
  }

  /** What strings.TrimSpace trims: also the vertical tab and the form feed. */
  predicate IsTrimmed(c: char) {
    IsSpace(c) || c as int == 0x0b || c as int == 0x0c
  }

  predicate Blank(s: string) {
    forall i :: 0 <= i < |s| ==> IsTrimmed(s[i])
  }

  predicate HasForbidden(s: string) {
    exists i :: 0 <= i < |s| && (IsSpace(s[i]) || s[i] == '*' || s[i] == '>')
  }

  predicate UsableName(s: string) {
    !Blank(s) && !HasForbidden(s)
  }

  /** What a configuration that names a broker must satisfy to start. */
  predicate Coherent(c: Settings) {
    && UsableName(c.stream) && UsableName(c.subjectPrefix)
    && UsableName(c.dlqSubjectPrefix) && UsableName(c.consumer)
    && !Prefixed(c.dlqSubjectPrefix, c.subjectPrefix)
    && 0 < c.duplicateWindow && c.pollInterval < c.duplicateWindow
    && 0 < c.streamMaxAge && 0 < c.maxDeliver && 0 < c.ackWait
  }

  /** Nothing but tab, line feed, vertical tab, form feed, carriage return and space. */
  predicate IsBlankText(s: string) {
    forall i :: 0 <= i < |s| ==> s[i] as int in {9, 10, 11, 12, 13, 32}
  }

  /** A tab, line feed, carriage return, space, asterisk or greater-than sign. */
  predicate HasWildcardOrSpace(s: string) {
    exists i :: 0 <= i < |s| && s[i] as int in {9, 10, 13, 32, 42, 62}
  }

  /** The names refused among the first n, and why. */
  ghost predicate RefusesNames(errs: seq<ConfigError>, names: seq<string>, n: nat)
    requires n <= |names|
  {
    forall i: nat ::
      && (EmptyName(i) in errs <==> i < n && IsBlankText(names[i]))
      && (BadName(i) in errs <==> i < n && !IsBlankText(names[i]) && HasWildcardOrSpace(names[i]))
  }

  /** Each error there is, and when. */
  ghost predicate Reports(c: Settings, errs: seq<ConfigError>) {
    && RefusesNames(errs, [c.stream, c.subjectPrefix, c.dlqSubjectPrefix, c.consumer], 4)
    && (DlqInsideFilter in errs <==>
          c.dlqSubjectPrefix == c.subjectPrefix || c.subjectPrefix + "." <= c.dlqSubjectPrefix)
    && ReportsLimits(c, errs)
  }

  predicate ReportsLimits(c: Settings, errs: seq<ConfigError>) {
    && (WindowNotPositive in errs <==> c.duplicateWindow <= 0)
    && (WindowTooShort in errs <==> 0 < c.duplicateWindow <= c.pollInterval)
    && (MaxAgeNotPositive in errs <==> c.streamMaxAge <= 0)
    && (MaxDeliverNotPositive in errs <==> c.maxDeliver <= 0)
    && (AckWaitNotPositive in errs <==> c.ackWait <= 0)
  }

  predicate OnlyNames(errs: seq<ConfigError>) {
    forall e :: e in errs ==> e.EmptyName? || e.BadName?
  }

  lemma NamesByCode(s: string)
    ensures IsBlankText(s) == Blank(s) && HasWildcardOrSpace(s) == HasForbidden(s)
  {
    assert forall c: char :: c as int in {9, 10, 11, 12, 13, 32} <==> IsTrimmed(c);
    assert forall c: char :: c as int in {9, 10, 13, 32, 42, 62} <==> IsSpace(c) || c == '*' || c == '>';
  }

  /** The loop over the names and prefixes. */
  method ValidateNames(names: seq<string>) returns (errs: seq<ConfigError>)
    ensures errs == [] <==> forall j :: 0 <= j < |names| ==> UsableName(names[j])
    ensures RefusesNames(errs, names, |names|) && OnlyNames(errs)
  {
    errs := [];
    for i := 0 to |names|
      invariant errs == [] <==> forall j :: 0 <= j < i ==> UsableName(names[j])
      invariant RefusesNames(errs, names, i) && OnlyNames(errs)
    {
      NamesByCode(names[i]);
      if Blank(names[i]) {
        errs := errs + [EmptyName(i)];
      } else if HasForbidden(names[i]) {
        errs := errs + [BadName(i)];
      }
    }
  }

  /** The checks of the durations and the delivery limit. */
  method ValidateLimits(c: Settings) returns (errs: seq<ConfigError>)
    ensures errs == [] <==> && 0 < c.duplicateWindow && c.pollInterval < c.duplicateWindow
                            && 0 < c.streamMaxAge && 0 < c.maxDeliver && 0 < c.ackWait
    ensures ReportsLimits(c, errs)
    ensures forall e :: e in errs ==> !e.EmptyName? && !e.BadName? && e != DlqInsideFilter
  {
    errs := [];
    if c.duplicateWindow <= 0 {
      errs := errs + [WindowNotPositive];
    } else if c.duplicateWindow <= c.pollInterval {
      errs := errs + [WindowTooShort];
    }
    if c.streamMaxAge <= 0 {
      errs := errs + [MaxAgeNotPositive];
    }
    if c.maxDeliver <= 0 {
      errs := errs + [MaxDeliverNotPositive];
    }
    if c.ackWait <= 0 {
      errs := errs + [AckWaitNotPositive];
    }
  }

  method ValidateNATS(c: Settings) returns (errs: seq<ConfigError>)
    ensures errs == [] <==> c.url == "" || Coherent(c)
    ensures if c.url == "" then errs == [] else Reports(c, errs)
  {
    if c.url == "" {
      return [];
    }
    var names := [c.stream, c.subjectPrefix, c.dlqSubjectPrefix, c.consumer];
    var refused := ValidateNames(names);
    assert (forall j :: 0 <= j < |names| ==> UsableName(names[j])) <==>
           UsableName(names[0]) && UsableName(names[1]) && UsableName(names[2]) && UsableName(names[3]);
    var loop := if Prefixed(c.dlqSubjectPrefix, c.subjectPrefix) then [DlqInsideFilter] else [];
    var limits := ValidateLimits(c);
    errs := refused + loop + limits;
    AllReported(c, refused, loop, limits);
  }

  lemma AllReported(c: Settings, refused: seq<ConfigError>, loop: seq<ConfigError>, limits: seq<ConfigError>)
    requires RefusesNames(refused, [c.stream, c.subjectPrefix, c.dlqSubjectPrefix, c.consumer], 4) && OnlyNames(refused)
    requires loop == if Prefixed(c.dlqSubjectPrefix, c.subjectPrefix) then [DlqInsideFilter] else []
    requires ReportsLimits(c, limits)
    requires forall e :: e in limits ==> !e.EmptyName? && !e.BadName? && e != DlqInsideFilter
    ensures Reports(c, refused + loop + limits)
  {
    var errs := refused + loop + limits;
    assert forall e :: e in errs <==> e in refused || e in loop || e in limits;
  }

  /** Coherent settings can loop all the same: "a" for dead letters and "a.a" for events. */
  lemma CoherentSettingsCanLoop(c: Settings)
    requires c.subjectPrefix == "a.a" && c.dlqSubjectPrefix == "a"
    requires UsableName(c.stream) && UsableName(c.consumer)
    requires 0 < c.duplicateWindow && c.pollInterval < c.duplicateWindow
    requires 0 < c.streamMaxAge && 0 < c.maxDeliver && 0 < c.ackWait
    ensures Coherent(c)
    ensures MatchesFilter(c.subjectPrefix, "a.a.x")
    ensures MatchesFilter(c.subjectPrefix, DeadLetterSubject(c.dlqSubjectPrefix, "a.a.x"))
  {
    NamesOfTheLoop();
    TokensOfTheLoop();
  }

  lemma NamesOfTheLoop()
    ensures UsableName("a") && UsableName("a.a") && !Prefixed("a", "a.a")
  {
    assert "a" == ['a'] && "a.a" == ['a', '.', 'a'];
    assert !HasForbidden(['a']) && !HasForbidden(['a', '.', 'a']);
    assert !IsTrimmed(['a'][0]) && !IsTrimmed(['a', '.', 'a'][0]);
    assert |"a.a" + "."| > |"a"|;
  }

  lemma TokensOfTheLoop()
    ensures MatchesFilter("a.a", "a.a.x") && MatchesFilter("a.a", DeadLetterSubject("a", "a.a.x"))
  {
    DotFreeIsOneToken("a");
    DotFreeIsOneToken("x");
    TokensOfDotted("a", "a");
    assert "a" + "." + "a" == "a.a";
    TokensOfDotted("a.a", "x");
    assert "a.a" + "." + "x" == "a.a.x";
    TokensOfDotted("a", "a.a.x");
    assert ["a"] + ["a"] < ["a"] + ["a"] + ["x"];
    assert ["a"] + (["a"] + ["a"] + ["x"]) == ["a", "a", "a", "x"];
    assert ["a"] + ["a"] < ["a", "a", "a", "x"];
  }

  // ---------- subjects built from data ----------

  predicate TokenChar(c: char) {
    'a' <= c <= 'z' || 'A' <= c <= 'Z' || '0' <= c <= '9' || c == '_' || c == '-'
  }

  predicate ValidTokens(s: string) {
    && s != ""
    && forall i :: 0 <= i < |Tokens(s)| ==>
         Tokens(s)[i] != "" && forall j :: 0 <= j < |Tokens(s)[i]| ==> TokenChar(Tokens(s)[i][j])
  }

  /** Both failures are permanent; which fragment is at fault only changes the message. */
  function Subject(prefix: string, eventType: string): Option<string> {
    if !ValidTokens(prefix) || !ValidTokens(eventType) then None else Some(prefix + "." + eventType)
  }

  /** A built subject is delivered to the consumer of its prefix, is itself well formed, and
      names one event type only. */
  lemma SubjectIsDelivered(prefix: string, eventType: string, other: string)
    requires Subject(prefix, eventType).Some?
    ensures var s := Subject(prefix, eventType).value;
            && MatchesFilter(prefix, s)
            && ValidTokens(s)
            && !HasForbidden(eventType)
            && (Subject(prefix, other) == Some(s) ==> other == eventType)
  {
    var s := Subject(prefix, eventType).value;
    TokensOfDotted(prefix, eventType);
    if Subject(prefix, other) == Some(s) {
      assert s[|prefix| + 1..] == other == eventType;
    }
    ValidTokensHaveNoForbidden(eventType);
  }

  /** Letters, digits, underscores and hyphens, in groups divided by single dots. */
  predicate IsDotted(s: string) {
    && s != "" && s[0] != '.' && s[|s| - 1] != '.'
    && (forall k :: 0 <= k < |s| ==>
          || 'a' <= s[k] <= 'z' || 'A' <= s[k] <= 'Z' || '0' <= s[k] <= '9'
          || s[k] == '_' || s[k] == '-' || s[k] == '.')
    && (forall k :: 0 <= k < |s| - 1 ==> !(s[k] == '.' && s[k + 1] == '.'))
  }

  /** The tokens after the first are well formed, and the first is but may be empty. */
  predicate RestValid(ts: seq<string>) {
    && (forall i :: 0 < i < |ts| ==> ts[i] != "")
    && forall i, j :: 0 <= i < |ts| && 0 <= j < |ts[i]| ==> TokenChar(ts[i][j])
  }

  /** Token characters and dots, each dot followed by a token character. */
  predicate RestDotted(s: string) {
    && (forall k :: 0 <= k < |s| ==> TokenChar(s[k]) || s[k] == '.')
    && (forall k :: 0 <= k < |s| && s[k] == '.' ==> k + 1 < |s| && s[k + 1] != '.')
  }

  lemma {:induction false} RestByCharacters(s: string)
    ensures RestValid(Tokens(s)) <==> RestDotted(s)
    ensures Tokens(s)[0] == "" <==> s == "" || s[0] == '.'
  {
    if s != "" {
      RestByCharacters(s[1..]);
      RestSplits(s);
      if s[0] == '.' {
        DotThen(Tokens(s[1..]));
      } else {
        CharThen(s[0], Tokens(s[1..]));
      }
    }
  }

  lemma DotThen(rest: seq<string>)
    requires rest != []
    ensures RestValid([""] + rest) <==> rest[0] != "" && RestValid(rest)
  {
    var ts := [""] + rest;
    assert forall i :: 0 <= i < |rest| ==> rest[i] == ts[i + 1];
    assert forall i :: 0 < i < |ts| ==> ts[i] == rest[i - 1];
  }

  lemma CharThen(c: char, rest: seq<string>)
    requires rest != []
    ensures RestValid([[c] + rest[0]] + rest[1..]) <==> TokenChar(c) && RestValid(rest)
  {
    var ts := [[c] + rest[0]] + rest[1..];
    assert ts[0][0] == c;
    assert forall i :: 0 < i < |rest| ==> rest[i] == ts[i];
    assert forall j :: 0 <= j < |rest[0]| ==> rest[0][j] == ts[0][j + 1];
    assert forall j :: 0 < j < |ts[0]| ==> ts[0][j] == rest[0][j - 1];
  }

  lemma RestSplits(s: string)
    requires s != ""
    ensures RestDotted(s) <==> && (TokenChar(s[0]) || s[0] == '.') && RestDotted(s[1..])
                               && (s[0] == '.' ==> s[1..] != "" && s[1..][0] != '.')
  {
    assert forall k :: 0 <= k < |s[1..]| ==> s[1..][k] == s[k + 1];
    assert forall k :: 0 < k < |s| ==> s[k] == s[1..][k - 1];
  }

  /** Which subjects are built, by their characters: those of a well-formed prefix and a
      well-formed event type, and then it is the one, a dot and the other. */
  lemma WhichSubjectsAreBuilt(prefix: string, eventType: string)
    ensures Subject(prefix, eventType) ==
            if IsDotted(prefix) && IsDotted(eventType) then Some(prefix + "." + eventType) else None
  {
    ValidByCharacters(prefix);
    ValidByCharacters(eventType);
  }

  lemma ValidByCharacters(s: string)
    ensures ValidTokens(s) <==> IsDotted(s)
  {
    RestByCharacters(s);
    assert ValidTokens(s) <==> s != "" && Tokens(s)[0] != "" && RestValid(Tokens(s));
    DottedIsRest(s);
  }

  lemma DottedIsRest(s: string)
    ensures IsDotted(s) <==> s != "" && s[0] != '.' && RestDotted(s)
  {
  }

  /** The filter "prefix.>" matches exactly the subjects that go on after the prefix and a dot. */
  lemma WhatTheFilterMatches(prefix: string, subject: string)
    ensures MatchesFilter(prefix, subject) <==> prefix + "." <= subject
  {
    PrefixedIsTokenPrefix(subject, prefix);
    JoinUndoesTokens(prefix);
    JoinUndoesTokens(subject);
    if prefix + "." <= subject {
      var rest := subject[|prefix| + 1..];
      assert subject == prefix + "." + rest;
      TokensOfDotted(prefix, rest);
    }
  }

  lemma ValidTokensHaveNoForbidden(s: string)
    requires ValidTokens(s)
    ensures !HasForbidden(s)
  {
    ValidByCharacters(s);
  }
}
