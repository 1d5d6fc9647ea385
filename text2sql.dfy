/** `text2sql` (old/TrabalhoFinal_v2.py): check the configuration, ask the
    language model, extract a statement from its answer and execute it.

    The model call and the database are outside the model: the model's
    answer (or the message of the exception it raised) is a parameter, and
    a `Session` records which model calls and which executions happened. */
module Text2Sql {
  import opened Wrappers
  import opened PyStr
  import SqlExtraction

  /** A setting read from the environment passes `if not X`: it is present
      and not the empty string. */
  predicate Configured(setting: Option<string>) {
    setting.Some? && setting.value != []
  }

  /** How one invocation ends. */
  datatype Outcome =
    | MissingApiKey
    | MissingModel
    | ModelError(message: string)
    | NoStatement
    | Executed(sql: string)

  /** The outcome of one invocation given the two settings and what the
      model call produced. */
  function Plan(apiKey: Option<string>, model: Option<string>, reply: Result<string, string>): (o: Outcome)
    ensures o == MissingApiKey <==> !Configured(apiKey)
    ensures o == MissingModel <==> Configured(apiKey) && !Configured(model)
    ensures o.ModelError? <==> Configured(apiKey) && Configured(model) && reply.Err?
    ensures o.ModelError? ==> o.message == reply.error
    ensures o == NoStatement <==>
              && Configured(apiKey) && Configured(model) && reply.Ok?
              && SqlExtraction.Extract(Strip(reply.value)).None?
    ensures o.Executed? <==>
              && Configured(apiKey) && Configured(model) && reply.Ok?
              && SqlExtraction.Extract(Strip(reply.value)).Some?
    ensures o.Executed? ==> SqlExtraction.Extract(Strip(reply.value)) == Some(o.sql)
    ensures o.Executed? ==> o.sql != [] && SqlExtraction.KeywordPrefixed(o.sql)
  {
    if !Configured(apiKey) then MissingApiKey
    else if !Configured(model) then MissingModel
    else
      match reply
      case Err(message) => ModelError(message)
      case Ok(text) =>
        var fullText := Strip(text);
        var sqlLine := SqlExtraction.Extract(fullText);
        SqlExtraction.ExtractShape(fullText);
        if sqlLine.None? || sqlLine.value == [] then NoStatement else Executed(sqlLine.value)
  }

  /** With both settings present, an answer that explains and then fences
      its statement executes exactly that statement. */
  lemma FencedReplyExecuted(apiKey: Option<string>, model: Option<string>)
    requires Configured(apiKey) && Configured(model)
    ensures Plan(apiKey, model, Ok(SqlExtraction.FencedReply())) == Executed("SELECT nome FROM hotel")
  {
    var text := SqlExtraction.FencedReply();
    assert text[0] == 'E' && text[|text| - 1] == '`';
    assert LeadingSpace(text) == 0 && TrailingSpace(text) == 0;
    assert Strip(text) == text;
    SqlExtraction.FencedResponse();
  }

  /** The effects of invocations that the program can observe. */
  class Session {
    var modelCalls: nat
    var executed: seq<string>

    constructor ()
      ensures modelCalls == 0 && executed == []
    {
      modelCalls := 0;
      executed := [];
    }

    /** One invocation: the model is called only when both settings are
        present, and a statement is executed only when one was extracted. */
    method Text2Sql(apiKey: Option<string>, model: Option<string>, reply: Result<string, string>)
      returns (o: Outcome)
      modifies this
      ensures o == Plan(apiKey, model, reply)
      ensures modelCalls == old(modelCalls) + (if Configured(apiKey) && Configured(model) then 1 else 0)
      ensures executed == old(executed) + (if o.Executed? then [o.sql] else [])
    {
      if !Configured(apiKey) {
        return MissingApiKey;
      }
      if !Configured(model) {
        return MissingModel;
      }
      modelCalls := modelCalls + 1;
      if reply.Err? {
        return ModelError(reply.error);
      }
      var fullText := Strip(reply.value);
      var sqlLine := SqlExtraction.ExtractSqlFromResponse(fullText);
      if sqlLine.None? || sqlLine.value == [] {
        return NoStatement;
      }
      executed := executed + [sqlLine.value];
      o := Executed(sqlLine.value);
    }
  }
}
