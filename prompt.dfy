/** The prompt variable binding of `answer_query` and `summarize_document`
    in rag_pipeline.py. A chat prompt template is text with `{name}` slots;
    invoking it fills each slot from the supplied variables and fails when
    one is missing. The language model behind the prompt is a parameter. */
module Prompt {
  import opened Documents
  import opened Context

  datatype Option<T> = None | Some(value: T)

  /** A template piece: literal text or a `{name}` slot. */
  datatype Segment = Text(text: string) | Slot(name: string)

  type Template = seq<Segment>

  /** The names of a template's slots (its input variables). */
  function Variables(t: Template): set<string>
  {
    if t == [] then {}
    else (if t[0].Slot? then {t[0].name} else {}) + Variables(t[1..])
  }

  /** Fills every slot from `vars`; a slot without a value is an error, and
      values for names that are not slots are ignored. */
  function Format(t: Template, vars: map<string, string>): (r: Option<string>)
    ensures r.Some? <==> Variables(t) <= vars.Keys
  {
    if t == [] then Some("")
    else
      var rest := Format(t[1..], vars);
      match t[0]
      case Text(s) => if rest.Some? then Some(s + rest.value) else None
      case Slot(n) => if n in vars && rest.Some? then Some(vars[n] + rest.value) else None
  }

  /** The text before the `{history}` slot of the question-answering prompt. */
  const QaPreamble: string :=
    "\nUse the pieces of information provided in the context and previous conversation history to answer the user's question.\nIf you don't know the answer, just say that you don't know, don't try to make up an answer. \nDon't provide anything out of the given context.\n\nPrevious Conversation:\n"

  /** `custom_prompt_template`. */
  const QaTemplate: Template := [
    Text(QaPreamble), Slot("history"),
    Text("\n\nQuestion: "), Slot("question"),
    Text(" \nContext: "), Slot("context"),
    Text(" \nAnswer:\n")
  ]

  lemma QaTemplateVariables()
    ensures Variables(QaTemplate) == {"history", "question", "context"}
  {
    var t := QaTemplate;
    assert t[6..][1..] == [];
    assert Variables(t[6..]) == {};
    assert t[5..][1..] == t[6..];
    assert Variables(t[5..]) == {"context"};
    assert t[4..][1..] == t[5..];
    assert Variables(t[4..]) == {"context"};
    assert t[3..][1..] == t[4..];
    assert Variables(t[3..]) == {"question", "context"};
    assert t[2..][1..] == t[3..];
    assert Variables(t[2..]) == {"question", "context"};
    assert t[1..][1..] == t[2..];
    assert Variables(t[1..]) == {"history", "question", "context"};
  }

  /** The variables `answer_query` passes to the chain: the question, the
      assembled context and the history, which defaults to "". */
  function QaVariables(documents: seq<Document>, query: string, history: string := ""):
    (vars: map<string, string>)
    ensures vars.Keys == Variables(QaTemplate)
    ensures "question" in vars && vars["question"] == query
    ensures "context" in vars && vars["context"] == GetContext(documents)
    ensures "history" in vars && vars["history"] == history
  {
    QaTemplateVariables();
    map["question" := query, "context" := GetContext(documents), "history" := history]
  }

  /** The prompt text `answer_query` sends: never a missing-variable error,
      and each value in its own place of the template. */
  function AnswerPrompt(documents: seq<Document>, query: string, history: string := ""): (p: string)
    ensures p == QaPreamble + (history + ("\n\nQuestion: " + (query + (" \nContext: "
                 + (GetContext(documents) + " \nAnswer:\n")))))
  {
    var vars := QaVariables(documents, query, history);
    var t := QaTemplate;
    var s6 := " \nAnswer:\n";
    var s5 := GetContext(documents) + s6;
    var s4 := " \nContext: " + s5;
    var s3 := query + s4;
    var s2 := "\n\nQuestion: " + s3;
    var s1 := history + s2;
    assert t[6..][1..] == [] && s6 + "" == s6;
    assert Format(t[6..], vars) == Some(s6);
    assert t[5..][1..] == t[6..] && Format(t[5..], vars) == Some(s5);
    assert t[4..][1..] == t[5..] && Format(t[4..], vars) == Some(s4);
    assert t[3..][1..] == t[4..] && Format(t[3..], vars) == Some(s3);
    assert t[2..][1..] == t[3..] && Format(t[2..], vars) == Some(s2);
    assert t[1..][1..] == t[2..] && Format(t[1..], vars) == Some(s1);
    Format(t, vars).value
  }

  /** `answer_query(documents, model, query, history)`: the model's reply to
      the filled prompt. */
  function AnswerQuery<R>(documents: seq<Document>, model: string -> R, query: string,
                          history: string := ""): (reply: R)
    ensures reply == model(QaPreamble + (history + ("\n\nQuestion: " + (query + (" \nContext: "
                     + (GetContext(documents) + " \nAnswer:\n"))))))
  {
    model(AnswerPrompt(documents, query, history))
  }

  /** The text before the `{context}` slot of the summary prompt. */
  const SummaryPreamble: string :=
    "\n    Summarize the given legal document concisely while preserving key details.\n    Provide a structured summary that highlights the most important points.\n\n    Document:\n    "

  /** `summary_prompt`. */
  const SummaryTemplate: Template := [
    Text(SummaryPreamble), Slot("context"), Text("\n\n    Summary:\n    ")
  ]

  /** The prompt text `summarize_document` sends: only the context is bound. */
  function SummaryPrompt(documents: seq<Document>): (p: string)
    ensures p == SummaryPreamble + GetContext(documents) + "\n\n    Summary:\n    "
  {
    var vars := map["context" := GetContext(documents)];
    var t := SummaryTemplate;
    assert t[2..][1..] == [] && t[1..][1..] == t[2..];
    assert t[2].text + "" == t[2].text;
    assert Format(t[2..], vars) == Some(t[2].text);
    assert Format(t[1..], vars) == Some(GetContext(documents) + t[2].text);
    Format(t, vars).value
  }

  /** `summarize_document(documents)` with the language model as a parameter. */
  function SummarizeDocument<R>(documents: seq<Document>, model: string -> R): (reply: R)
    ensures reply == model(SummaryPreamble + GetContext(documents) + "\n\n    Summary:\n    ")
  {
    model(SummaryPrompt(documents))
  }
}
