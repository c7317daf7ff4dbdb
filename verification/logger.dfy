/** The client-side log: a bounded buffer with the newest entry first, and
    the fixed messages shown to the user for API, validation and SQL errors. */
module Logging {
  import opened JsStrings

  /** A log entry. The timestamp, the attached data and the random id are
      not modelled. */
  datatype Entry = Entry(level: string, message: string)

  /** `{ debug: 0, info: 1, warn: 2, error: 3 }[level]`; any other level
      reads `undefined`. */
  function Rank(level: string): (r: Option<nat>)
    ensures r.Some? <==> level in {"debug", "info", "warn", "error"}
  {
    if level == "debug" then Some(0)
    else if level == "info" then Some(1)
    else if level == "warn" then Some(2)
    else if level == "error" then Some(3)
    else None
  }

  /** `levels[level] >= levels[logLevel]`: a comparison with `undefined` is
      false. */
  predicate AtLeast(level: string, threshold: string) {
    Rank(level).Some? && Rank(threshold).Some? && Rank(level).value >= Rank(threshold).value
  }

  /** The order is total on the four levels: a level passes a threshold
      exactly when it is not below it. */
  lemma AtLeastOrder(level: string, threshold: string)
    requires Rank(level).Some? && Rank(threshold).Some?
    ensures AtLeast(level, threshold) <==> !(AtLeast(threshold, level) && level != threshold)
  {
  }

  /** Under the default threshold `info`, everything but `debug` and unknown
      levels is shown. */
  lemma DefaultThreshold(level: string)
    ensures AtLeast(level, "info") <==> level in {"info", "warn", "error"}
  {
  }

  /** `[e, ...logs].slice(0, cap)`: the buffer after `unshift` and the cap. */
  function Pushed(logs: seq<Entry>, e: Entry, cap: nat): (r: seq<Entry>)
    ensures |r| == if |logs| + 1 > cap then cap else |logs| + 1
    ensures cap > 0 ==> r[0] == e && r[1..] == logs[..|r| - 1]
  {
    var grown := [e] + logs;
    if |grown| > cap then grown[..cap] else grown
  }

  /** The buffer after a run of `log` calls, oldest call first. */
  function PushAll(logs: seq<Entry>, es: seq<Entry>, cap: nat): seq<Entry>
    decreases |es|
  {
    if es == [] then logs
    else Pushed(PushAll(logs, es[..|es| - 1], cap), es[|es| - 1], cap)
  }

  /** The entries in the opposite order. */
  function Reverse(es: seq<Entry>): (r: seq<Entry>)
    ensures |r| == |es|
    ensures forall i :: 0 <= i < |es| ==> r[i] == es[|es| - 1 - i]
    decreases |es|
  {
    if es == [] then [] else [es[|es| - 1]] + Reverse(es[..|es| - 1])
  }

  function Min(a: int, b: int): int {
    if a <= b then a else b
  }

  /** Whatever was logged, the buffer holds exactly the newest `cap`
      entries, newest first, followed by what was there before while room
      remains. */
  lemma {:induction false} PushAllNewestFirst(logs: seq<Entry>, es: seq<Entry>, cap: nat)
    requires |logs| <= cap
    ensures PushAll(logs, es, cap) == (Reverse(es) + logs)[..Min(cap, |es| + |logs|)]
    decreases |es|
  {
    if es == [] {
      assert (Reverse(es) + logs)[..Min(cap, |es| + |logs|)] == logs;
    } else {
      var init := es[..|es| - 1];
      var e := es[|es| - 1];
      PushAllNewestFirst(logs, init, cap);
      var whole := Reverse(init) + logs;
      var m := Min(cap, |init| + |logs|);
      var prior := whole[..m];
      assert PushAll(logs, es, cap) == Pushed(prior, e, cap);
      assert Reverse(es) + logs == [e] + whole;
      var n := Min(cap, |es| + |logs|);
      assert n <= m + 1;
      assert ([e] + prior)[..n] == ([e] + whole)[..n];
    }
  }

  /** `getFriendlyMessage`: the message for an API error's HTTP status. */
  function FriendlyMessage(status: Option<int>): (m: string)
    ensures status == Some(404) ==> m == "Recurso não encontrado"
    ensures status == Some(500) ==> m == "Erro interno do servidor"
    ensures status == Some(403) ==> m == "Acesso negado"
    ensures status == Some(400) ==> m == "Dados inválidos enviados"
    ensures m == "Erro de conexão com o servidor" <==> status !in {Some(404), Some(500), Some(403), Some(400)}
  {
    if status == Some(404) then "Recurso não encontrado"
    else if status == Some(500) then "Erro interno do servidor"
    else if status == Some(403) then "Acesso negado"
    else if status == Some(400) then "Dados inválidos enviados"
    else "Erro de conexão com o servidor"
  }

  /** `getValidationMessage`: the message for a failed validation rule. */
  function ValidationMessage(rule: string): (m: string)
    ensures m == "Formato inválido" <==> rule !in {"required", "email", "min", "max"}
  {
    if rule == "required" then "Campo obrigatório"
    else if rule == "email" then "Email inválido"
    else if rule == "min" then "Valor muito pequeno"
    else if rule == "max" then "Valor muito grande"
    else "Formato inválido"
  }

  /** `getSqlErrorMessage`: the first keyword the error text contains picks
      the message; an error without text gets the generic one. */
  function SqlErrorMessage(message: Option<string>): (m: string)
    ensures message.Some? && Contains(message.value, "syntax error") ==> m == "Erro de sintaxe SQL"
    ensures m == "Erro ao executar consulta SQL" <==>
      (message.None? ||
       (!Contains(message.value, "syntax error") && !Contains(message.value, "connection") &&
        !Contains(message.value, "permission")))
  {
    match message
    case None => "Erro ao executar consulta SQL"
    case Some(text) =>
      if Contains(text, "syntax error") then "Erro de sintaxe SQL"
      else if Contains(text, "connection") then "Erro de conexão com banco de dados"
      else if Contains(text, "permission") then "Permissão negada no banco de dados"
      else "Erro ao executar consulta SQL"
  }

  /** The entries of one level, in stored order. */
  function ByLevel(logs: seq<Entry>, level: string): (r: seq<Entry>)
    ensures |r| <= |logs|
    ensures forall e :: e in r <==> e in logs && e.level == level
    decreases |logs|
  {
    if logs == [] then []
    else (if logs[0].level == level then [logs[0]] else []) + ByLevel(logs[1..], level)
  }

  /** Filtering keeps order: it distributes over concatenation. */
  lemma {:induction false} ByLevelAppend(a: seq<Entry>, b: seq<Entry>, level: string)
    ensures ByLevel(a + b, level) == ByLevel(a, level) + ByLevel(b, level)
    decreases |a|
  {
    if a == [] {
      assert a + b == b;
    } else {
      assert (a + b)[1..] == a[1..] + b;
      ByLevelAppend(a[1..], b, level);
    }
  }

  /** `list.slice(0, end)`: a negative end counts back from the length. */
  function SliceFront(s: seq<Entry>, end: int): (r: seq<Entry>)
    ensures |r| == if end >= 0 then Min(end, |s|) else if |s| + end >= 0 then |s| + end else 0
    ensures r == s[..|r|]
  {
    if end >= |s| then s
    else if end >= 0 then s[..end]
    else if |s| + end >= 0 then s[..|s| + end]
    else []
  }

  class Logger {
    var logs: seq<Entry>
    const maxLogs: nat := 100
    var logLevel: string

    /** The buffer never grows past its cap. */
    ghost predicate Valid()
      reads this
    {
      |logs| <= maxLogs
    }

    constructor()
      ensures logs == [] && maxLogs == 100 && logLevel == "info"
      ensures Valid()
    {
      logs := [];
      logLevel := "info";
    }

    /** `shouldLog`. */
    function ShouldLog(level: string): (r: bool)
      reads this
      ensures r ==> Rank(level).Some? && Rank(logLevel).Some?
      ensures logLevel == "info" ==> (r <==> level in {"info", "warn", "error"})
    {
      AtLeast(level, logLevel)
    }

    /** The buffer part of `log`: the new entry goes first and the oldest
        entries past the cap are dropped. */
    method Log(level: string, message: string)
      modifies this
      ensures logs == Pushed(old(logs), Entry(level, message), maxLogs)
      ensures logLevel == old(logLevel)
      ensures old(Valid()) ==> Valid()
    {
      logs := [Entry(level, message)] + logs;
      if |logs| > maxLogs {
        logs := logs[..maxLogs];
      }
    }

    method Info(message: string)
      modifies this
      ensures logs == Pushed(old(logs), Entry("info", message), maxLogs)
      ensures logLevel == old(logLevel)
    {
      Log("info", message);
    }

    /** `getLogs(level, limit)`: a missing or empty level keeps every
        entry, and a missing limit is 50. */
    function GetLogs(level: Option<string>, limit: Option<int>): (r: seq<Entry>)
      reads this
      ensures var kept := if Filled(level) then |ByLevel(logs, level.value)| else |logs|;
        |r| == (if limit.None? then Min(50, kept)
                else if limit.value >= 0 then Min(limit.value, kept)
                else if kept + limit.value >= 0 then kept + limit.value else 0)
      ensures Filled(level) ==> |r| <= |ByLevel(logs, level.value)| && r == ByLevel(logs, level.value)[..|r|]
      ensures !Filled(level) ==> |r| <= |logs| && r == logs[..|r|]
      ensures Filled(level) ==> forall e :: e in r ==> e in logs && e.level == level.value
    {
      var filtered := if Filled(level) then ByLevel(logs, level.value) else logs;
      SliceFront(filtered, if limit.Some? then limit.value else 50)
    }

    /** `clear`: the buffer is emptied, and the clearing itself is logged. */
    method Clear()
      modifies this
      ensures logs == [Entry("info", "Logs limpos")]
      ensures logLevel == old(logLevel)
    {
      logs := [];
      Info("Logs limpos");
    }
  }
}
