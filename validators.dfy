/** pydst/validators.py: the argument validators built on a cerberus schema.
    The schema's regular expression `[a-zA-Z]+` is not interpreted here; its
    verdict on a string is the parameter `matches`. */
module Validators {
  import opened Py
  import Strings

  /** `str_in_list(s, l)`: whether `s` is an element of `l`. */
  function StrInList(s: string, l: seq<string>): (r: bool)
    ensures r <==> s in l
  {
    if l == [] then false
    else if l[0] == s then true
    else StrInList(s, l[1..])
  }

  /** The keys of an ordered dictionary, in iteration order. */
  function Keys<V>(dict: seq<(string, V)>): (r: seq<string>)
    ensures |r| == |dict|
    ensures forall k :: 0 <= k < |dict| ==> r[k] == dict[k].0
  {
    seq(|dict|, k requires 0 <= k < |dict| => dict[k].0)
  }

  /** `dict_keys_to_comma_str(dict)`: the keys joined by ", " in iteration order. */
  function DictKeysToCommaStr<V>(dict: seq<(string, V)>): (r: string)
    ensures dict == [] ==> r == ""
    ensures |dict| == 1 ==> r == dict[0].0
  {
    Strings.Join(Keys(dict), ", ")
  }

  /** Each key stands in the result, in order, at its offset; exactly ", "
      separates it from the next key, and nothing follows the last key. */
  lemma DictKeysInOrder<V>(dict: seq<(string, V)>, i: nat)
    requires i < |dict|
    ensures var o := Strings.Offset(Keys(dict), ", ", i);
      o + |dict[i].0| <= |DictKeysToCommaStr(dict)| &&
      DictKeysToCommaStr(dict)[o..o + |dict[i].0|] == dict[i].0
    ensures i + 1 < |dict| ==>
      var o := Strings.Offset(Keys(dict), ", ", i);
      var next := Strings.Offset(Keys(dict), ", ", i + 1);
      next == o + |dict[i].0| + 2 && next <= |DictKeysToCommaStr(dict)| &&
      DictKeysToCommaStr(dict)[o + |dict[i].0|..next] == ", "
    ensures i + 1 == |dict| ==>
      |DictKeysToCommaStr(dict)| == Strings.Offset(Keys(dict), ", ", i) + |dict[i].0|
  {
    var keys := Keys(dict);
    Strings.JoinPieceAt(keys, ", ", i);
    if i + 1 < |dict| {
      Strings.JoinSepAt(keys, ", ", i);
    } else {
      Strings.JoinLength(keys, ", ");
    }
  }

  /** The cerberus rule `{'type': 'string', 'regex': r'[a-zA-Z]+'}` (not nullable). */
  predicate WellFormedLang(v: Value, matches: string -> bool)
  {
    v.Str? && matches(v.s)
  }

  /** The cerberus rule `{'type': 'list', 'schema': <the string rule>}`. */
  predicate WellFormedLangs(v: Value, matches: string -> bool)
  {
    v.List? && forall k :: 0 <= k < |v.items| ==> WellFormedLang(v.items[k], matches)
  }

  /** The cerberus rule a value breaks first. */
  function LangRuleBroken(v: Value, matches: string -> bool): string
    requires !WellFormedLang(v, matches)
  {
    if v.NoneValue? then "nullable" else if !v.Str? then "type" else "regex"
  }

  function LangsRuleBroken(v: Value, matches: string -> bool): string
    requires !WellFormedLangs(v, matches)
  {
    if v.NoneValue? then "nullable" else if !v.List? then "type" else "schema"
  }

  /** `v.errors` after validating the document `{'lang': ..., 'valid_langs': ...}`:
      one entry per offending field, in document order, with the rule it broke. */
  function SchemaErrors(lang: Value, validLangs: Value, matches: string -> bool): (errors: seq<(string, string)>)
    ensures errors == [] <==> WellFormedLang(lang, matches) && WellFormedLangs(validLangs, matches)
    ensures forall k :: 0 <= k < |errors| ==> errors[k].0 in ["lang", "valid_langs"]
    ensures (exists k :: 0 <= k < |errors| && errors[k].0 == "lang") <==> !WellFormedLang(lang, matches)
    ensures (exists k :: 0 <= k < |errors| && errors[k].0 == "valid_langs") <==> !WellFormedLangs(validLangs, matches)
  {
    var langErrors := if WellFormedLang(lang, matches) then [] else [("lang", LangRuleBroken(lang, matches))];
    var langsErrors := if WellFormedLangs(validLangs, matches) then [] else [("valid_langs", LangsRuleBroken(validLangs, matches))];
    var errors := langErrors + langsErrors;
    assert "lang" != "valid_langs" by { assert |"lang"| != |"valid_langs"|; }
    assert langErrors != [] ==> errors[0] == langErrors[0];
    assert langsErrors != [] ==> errors[|errors| - 1] == langsErrors[0];
    errors
  }

  /** Python's `repr` of a list of plain strings, e.g. `['da', 'en']`. */
  function ListRepr(items: seq<string>): string
  {
    "[" + Strings.Join(Quoted(items), ", ") + "]"
  }

  /** Each string in single quotes, as `repr` shows it. */
  function Quoted(items: seq<string>): seq<string>
  {
    if items == [] then [] else ["'" + items[0] + "'"] + Quoted(items[1..])
  }

  function SchemaMessage(fields: string): string
  {
    "The following arguments is not provided correctly: " + fields + ". See the docs."
  }

  /** `lang_validator(lang, valid_langs)`: returns (None) when `lang` is a
      well-formed string in the well-formed list `valid_langs`; raises
      ValueError otherwise, reporting schema errors before membership. */
  function LangValidator(lang: Value, validLangs: Value, matches: string -> bool): (r: Result<()>)
    ensures r.Ok? <==> WellFormedLang(lang, matches) && WellFormedLangs(validLangs, matches) && lang in validLangs.items
    ensures r.Err? ==> r.error.ValueError?
  {
    var errors := SchemaErrors(lang, validLangs, matches);
    if errors != [] then
      Err(ValueError(SchemaMessage(DictKeysToCommaStr(errors))))
    else
      var langs := Strs(validLangs.items);
      if !StrInList(lang.s, langs) then
        Err(ValueError(lang.s + " is not in " + ListRepr(langs)))
      else
        Ok(())
  }

  /** An ill-formed `lang` is reported by name, before membership is looked at. */
  lemma LangValidatorNamesLang(lang: Value, validLangs: Value, matches: string -> bool)
    requires !WellFormedLang(lang, matches) && WellFormedLangs(validLangs, matches)
    ensures LangValidator(lang, validLangs, matches) == Err(ValueError(SchemaMessage("lang")))
  {
    assert Keys(SchemaErrors(lang, validLangs, matches)) == ["lang"];
  }

  /** An ill-formed `valid_langs` is reported by name. */
  lemma LangValidatorNamesValidLangs(lang: Value, validLangs: Value, matches: string -> bool)
    requires WellFormedLang(lang, matches) && !WellFormedLangs(validLangs, matches)
    ensures LangValidator(lang, validLangs, matches) == Err(ValueError(SchemaMessage("valid_langs")))
  {
    assert Keys(SchemaErrors(lang, validLangs, matches)) == ["valid_langs"];
  }

  /** When both are ill-formed, both are reported, in document order. */
  lemma LangValidatorNamesBoth(lang: Value, validLangs: Value, matches: string -> bool)
    requires !WellFormedLang(lang, matches) && !WellFormedLangs(validLangs, matches)
    ensures LangValidator(lang, validLangs, matches) == Err(ValueError(SchemaMessage("lang, valid_langs")))
  {
    var errors := SchemaErrors(lang, validLangs, matches);
    assert Keys(errors) == ["lang", "valid_langs"];
    assert Strings.Join(["valid_langs"], ", ") == "valid_langs";
    assert Strings.Join(["lang", "valid_langs"], ", ") == "lang" + ", " + Strings.Join(["valid_langs"], ", ");
    assert DictKeysToCommaStr(errors) == "lang, valid_langs";
  }

  /** `lang_validator('da', ['da', 'en'])` returns None. */
  lemma LangValidatorAcceptsDa(matches: string -> bool)
    requires matches("da") && matches("en")
    ensures LangValidator(Str("da"), List([Str("da"), Str("en")]), matches) == Ok(())
  {
  }

  /** `lang_validator(2, ['da', 'en'])` raises ValueError naming `lang`. */
  lemma LangValidatorRejectsInt(matches: string -> bool)
    requires matches("da") && matches("en")
    ensures LangValidator(Int(2), List([Str("da"), Str("en")]), matches) == Err(ValueError(SchemaMessage("lang")))
  {
  }

  /** `lang_validator('da', 'da')` raises ValueError naming `valid_langs`. */
  lemma LangValidatorRejectsStringList(matches: string -> bool)
    requires matches("da")
    ensures LangValidator(Str("da"), Str("da"), matches) == Err(ValueError(SchemaMessage("valid_langs")))
  {
  }

  /** `lang_validator('da', ['en'])` raises ValueError because 'da' is missing. */
  lemma LangValidatorRejectsMissing(matches: string -> bool)
    requires matches("da") && matches("en")
    ensures LangValidator(Str("da"), List([Str("en")]), matches) == Err(ValueError("da is not in ['en']"))
  {
    var items := [Str("en")];
    assert SchemaErrors(Str("da"), List(items), matches) == [];
    assert Strs(items) == ["en"];
    assert !StrInList("da", ["en"]);
    MissingMessage();
  }

  /** The message for 'da' missing from ['en']. */
  lemma MissingMessage()
    ensures "da" + " is not in " + ListRepr(["en"]) == "da is not in ['en']"
  {
    assert "'" + "en" + "'" == "'en'";
    assert Quoted(["en"]) == ["'en'"];
    assert Strings.Join(["'en'"], ", ") == "'en'";
    assert ListRepr(["en"]) == "['en']";
  }
}
