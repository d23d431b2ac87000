/** pydst/pydst.py: the `Dst` client, its validated language, and the URL
    `get_subjects` requests. The HTTP request itself is a parameter. */
module Pydst {
  import opened Py
  import Strings
  import Utils

  const SubjectsBase := "https://api.statbank.dk/v1/subjects/"
  const QueryPrefix := "?lang="
  const QuerySuffix := "&format=JSON"

  /** The query string of every subjects request. */
  function Query(lang: string): string
  {
    QueryPrefix + lang + QuerySuffix
  }

  /** The language of one call: a falsy override (None or "") falls back to
      the client's own; any other override is used as given, unchecked. */
  function ResolveLang(override: Option<string>, own: string): (l: string)
    ensures override.None? || override.value == "" ==> l == own
    ensures override.Some? && override.value != "" ==> l == override.value
  {
    if override.None? || override.value == "" then own else override.value
  }

  const SubjectsTypeError := "Subjects must be a list or a string of subject ids"

  /** The if/elif chain of `get_subjects` that picks the request URL. */
  function SubjectsUrl(subjects: Value, lang: string): (r: Result<string>)
    ensures r.Err? <==> Truthy(subjects) && !subjects.Str? && !(subjects.List? && AllStrs(subjects.items))
    ensures r.Err? && !subjects.List? ==> r.error == ValueError(SubjectsTypeError)
    ensures r.Err? && subjects.List? ==> r.error.TypeError?
    ensures r.Ok? ==> SubjectsBase <= r.value
  {
    if !Truthy(subjects) then
      Ok(SubjectsBase + Query(lang))
    else if subjects.Str? then
      Ok(SubjectsBase + subjects.s + Query(lang))
    else if subjects.List? then
      if AllStrs(subjects.items) then
        Ok(SubjectsBase + Strings.Join(Strs(subjects.items), ",") + Query(lang))
      else
        Err(TypeError("sequence item: expected str instance"))
    else
      Err(ValueError(SubjectsTypeError))
  }

  /** Reads the subject ids and the language back out of a subjects URL. */
  function ParseSubjectsUrl(url: string): Option<(seq<string>, string)>
  {
    if !(SubjectsBase <= url) then None
    else
      var rest := url[|SubjectsBase|..];
      var q := Strings.FindChar(rest, '?');
      var path, query := rest[..q], rest[q..];
      if |query| < |QueryPrefix| + |QuerySuffix|
         || query[..|QueryPrefix|] != QueryPrefix
         || query[|query| - |QuerySuffix|..] != QuerySuffix
      then None
      else
        Some((if path == "" then [] else Strings.Split(path, ','),
              query[|QueryPrefix|..|query| - |QuerySuffix|]))
  }

  /** A subject id: a non-empty string of digits. */
  predicate IsSubjectId(s: string)
  {
    |s| > 0 && forall j :: 0 <= j < |s| ==> '0' <= s[j] <= '9'
  }

  /** The first '?' after a path free of '?' is the one that opens the query. */
  lemma FindQuery(path: string, lang: string)
    requires forall j :: 0 <= j < |path| ==> path[j] != '?'
    ensures Strings.FindChar(path + Query(lang), '?') == |path|
  {
    var rest := path + Query(lang);
    var q := Strings.FindChar(rest, '?');
    assert rest[|path|] == QueryPrefix[0] == '?';
  }

  /** The query string gives back its language. */
  lemma QueryParts(lang: string)
    ensures var query := Query(lang);
      |query| >= |QueryPrefix| + |QuerySuffix| &&
      query[..|QueryPrefix|] == QueryPrefix &&
      query[|query| - |QuerySuffix|..] == QuerySuffix &&
      query[|QueryPrefix|..|query| - |QuerySuffix|] == lang
  {
  }

  /** A URL with path `path` (free of '?') and language `lang` parses into
      the path's comma-separated pieces and `lang`. */
  lemma ParseBuilt(path: string, lang: string)
    requires forall j :: 0 <= j < |path| ==> path[j] != '?'
    ensures ParseSubjectsUrl(SubjectsBase + path + Query(lang))
         == Some((if path == "" then [] else Strings.Split(path, ','), lang))
  {
    var rest := path + Query(lang);
    Strings.AppendAssoc(SubjectsBase, path, Query(lang));
    Strings.AppendHalves(SubjectsBase, rest);
    FindQuery(path, lang);
    Strings.AppendHalves(path, Query(lang));
    QueryParts(lang);
  }

  /** Comma-joined subject ids form a non-empty path free of '?' that splits back into the ids. */
  lemma JoinedIds(ids: seq<string>)
    requires |ids| > 0
    requires forall k :: 0 <= k < |ids| ==> IsSubjectId(ids[k])
    ensures var path := Strings.Join(ids, ",");
      path != "" && (forall j :: 0 <= j < |path| ==> path[j] != '?') && Strings.Split(path, ',') == ids
  {
    Strings.JoinKeeps(ids, ",", c => '0' <= c <= '9' || c == ',');
    Strings.JoinPieceAt(ids, ",", 0);
    Strings.SplitJoin(ids, ',');
  }

  /** The URL asked for by a non-empty list of ids. */
  lemma ListUrl(ids: seq<string>, lang: string)
    requires |ids| > 0
    ensures SubjectsUrl(List(StrValues(ids)), lang) == Ok(SubjectsBase + Strings.Join(ids, ",") + Query(lang))
  {
    assert StrValues(ids) != [];
  }

  /** The list form of `subjects` survives the trip into the URL and back. */
  lemma SubjectsUrlRoundTrip(ids: seq<string>, lang: string)
    requires forall k :: 0 <= k < |ids| ==> IsSubjectId(ids[k])
    ensures SubjectsUrl(List(StrValues(ids)), lang).Ok?
    ensures ParseSubjectsUrl(SubjectsUrl(List(StrValues(ids)), lang).value) == Some((ids, lang))
  {
    if ids == [] {
      ParseBuilt("", lang);
      assert SubjectsBase + "" + Query(lang) == SubjectsBase + Query(lang);
      assert !Truthy(List(StrValues(ids)));
    } else {
      JoinedIds(ids);
      ListUrl(ids, lang);
      ParseBuilt(Strings.Join(ids, ","), lang);
    }
  }

  /** A comma-separated string of ids asks for the same URL as the list of ids. */
  lemma StringAndListAgree(ids: seq<string>, lang: string)
    ensures SubjectsUrl(Str(Strings.Join(ids, ",")), lang) == SubjectsUrl(List(StrValues(ids)), lang)
  {
    var joined := Strings.Join(ids, ",");
    if ids == [] {
      assert !Truthy(List(StrValues(ids)));
      return;
    }
    ListUrl(ids, lang);
    if joined == "" {
      assert SubjectsUrl(Str(joined), lang) == Ok(SubjectsBase + Query(lang));
      assert SubjectsBase + joined + Query(lang) == SubjectsBase + Query(lang);
    } else {
      assert SubjectsUrl(Str(joined), lang) == Ok(SubjectsBase + joined + Query(lang));
    }
  }

  /** The URL shown in the `get_subjects` documentation. */
  lemma SubjectsUrlDocExample()
    ensures SubjectsUrl(NoneValue, "en") == Ok("https://api.statbank.dk/v1/subjects/?lang=en&format=JSON")
  {
    assert SubjectsBase + Query("en") == "https://api.statbank.dk/v1/subjects/?lang=en&format=JSON";
  }

  /** Every falsy filter gives the unfiltered URL. */
  lemma SubjectsUrlFalsy(subjects: Value, lang: string)
    requires !Truthy(subjects)
    ensures SubjectsUrl(subjects, lang) == Ok(SubjectsBase + "?lang=" + lang + "&format=JSON")
  {
    assert SubjectsBase + Query(lang) == SubjectsBase + "?lang=" + lang + "&format=JSON";
  }

  /** A non-empty string filter is inserted verbatim between the endpoint and
      the query. */
  lemma SubjectsUrlString(s: string, lang: string)
    requires s != ""
    ensures SubjectsUrl(Str(s), lang) == Ok(SubjectsBase + s + Query(lang))
  {
  }

  /** The string filter "02" with language "da". */
  lemma SubjectsUrlStringExample()
    ensures SubjectsUrl(Str("02"), "da") == Ok("https://api.statbank.dk/v1/subjects/02?lang=da&format=JSON")
  {
    assert SubjectsBase + "02" + Query("da") == "https://api.statbank.dk/v1/subjects/02?lang=da&format=JSON";
  }

  /** A list filter is comma-joined without spaces. */
  lemma SubjectsUrlListExample()
    ensures SubjectsUrl(List([Str("02"), Str("05")]), "en")
         == Ok("https://api.statbank.dk/v1/subjects/02,05?lang=en&format=JSON")
  {
    var ids: seq<string> := ["02", "05"];
    ListUrl(ids, "en");
    assert StrValues(ids) == [Str("02"), Str("05")];
    assert ids[1..] == ["05"];
    assert Strings.Join(ids, ",") == "02,05";
    assert Query("en") == "?lang=en&format=JSON";
    assert SubjectsBase + "02,05" == "https://api.statbank.dk/v1/subjects/02,05";
    assert "https://api.statbank.dk/v1/subjects/02,05" + "?lang=en&format=JSON"
        == "https://api.statbank.dk/v1/subjects/02,05?lang=en&format=JSON";
  }

  /** An integer filter is refused before any request. */
  lemma SubjectsUrlIntExample()
    ensures SubjectsUrl(Int(2), "en") == Err(ValueError(SubjectsTypeError))
  {
  }

  /** What the server answers to a GET of a URL. */
  datatype Reply = Reply(status: int, reason: string, body: Utils.Body)

  /** The rows `get_subjects` returns for a reply that passed the guard. */
  function SubjectRows(body: Utils.Body): (r: Result<seq<Utils.Record>>)
    ensures r.Ok? <==> body.JsonList?
    ensures r.Ok? ==> r.value == Utils.Rows(Utils.Leaves(Utils.Preorder(body.nodes)))
    ensures body.NotJson? ==> r == Err(JsonDecodeError)
  {
    match body
    case JsonList(nodes) =>
      Utils.FlattenIsLeafRows(nodes);
      Ok(Utils.Flatten(nodes))
    case NotJson => Err(JsonDecodeError)
    case _ => Err(TypeError("subject tree expected"))
  }

  /** The statistics client: holds the default language, checked at construction. */
  class Dst {
    var lang: string

    predicate Valid()
      reads this
    {
      lang in Utils.Languages
    }

    constructor (lang: string)
      requires lang in Utils.Languages
      ensures this.lang == lang && Valid()
    {
      this.lang := lang;
    }

    /** `get_subjects` up to the request: the URL it fetches, or the error it
        raises before fetching anything. The client's language is not changed. */
    method SubjectsRequestUrl(subjects: Value, lang: Option<string> := None) returns (r: Result<string>)
      ensures r == SubjectsUrl(subjects, ResolveLang(lang, this.lang))
    {
      var l: string;
      if lang.None? || lang.value == "" {
        l := this.lang;
      } else {
        l := lang.value;
      }
      r := SubjectsUrl(subjects, l);
    }

    /** `get_subjects(subjects, lang)` with the network as `server`: build the
        URL, fetch it, run the response guard, flatten the subject tree. */
    method GetSubjects(subjects: Value, lang: Option<string>, server: string -> Reply)
      returns (r: Result<seq<Utils.Record>>)
      ensures var url := SubjectsUrl(subjects, ResolveLang(lang, this.lang));
        r == if url.Err? then Err(url.error)
             else
               var reply := server(url.value);
               var verdict := Utils.GuardVerdict(reply.status, reply.body, Str(reply.reason));
               if verdict.Raise? then Err(verdict.error) else SubjectRows(reply.body)
    {
      var url := SubjectsRequestUrl(subjects, lang);
      if url.Err? {
        return Err(url.error);
      }
      var reply := server(url.value);
      var response := new Utils.Response(reply.status, reply.body, Str(reply.reason));
      var verdict := Utils.BadRequestWrapper(response);
      if verdict.Raise? {
        return Err(verdict.error);
      }
      match reply.body {
        case JsonList(nodes) =>
          var rows := Utils.JsonToDfDict(nodes);
          r := Ok(rows);
        case NotJson =>
          r := Err(JsonDecodeError);
        case _ =>
          r := Err(TypeError("subject tree expected"));
      }
    }
  }

  /** `Dst(lang)`: a client whose language is `lang` when `check_lang` accepts
      it; otherwise the ValueError `check_lang` raises. */
  method NewDst(lang: Value := Str("en")) returns (r: Result<Dst>)
    ensures r.Ok? <==> Utils.CheckLang(lang).Ok?
    ensures r.Ok? ==> fresh(r.value) && r.value.Valid() && lang == Str(r.value.lang)
    ensures r.Err? ==> r.error == Utils.CheckLang(lang).error
  {
    var checked := Utils.CheckLang(lang);
    if checked.Err? {
      return Err(checked.error);
    }
    var d := new Dst(checked.value);
    return Ok(d);
  }

  /** `Dst()` holds 'en', `Dst('da')` holds 'da', and `Dst(lang='es')` raises ValueError. */
  method ConstructionExamples() returns (en: Result<Dst>, da: Result<Dst>, es: Result<Dst>)
    ensures en.Ok? && en.value.lang == "en"
    ensures da.Ok? && da.value.lang == "da"
    ensures es.Err? && es.error.ValueError?
  {
    en := NewDst();
    da := NewDst(Str("da"));
    es := NewDst(Str("es"));
  }
}
