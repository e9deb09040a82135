/**
 * The handler's leaf readers for the Abra export: each looks up the first child with a
 * given tag (findtext) and coerces its text to a boolean, a float, a stripped string or a
 * normalised date. They are the only way values enter an Abra record.
 */
module Leaves {
  import opened Wrappers
  import opened Text
  import opened Numbers
  import opened Dates
  import opened Xml

  /** A value of an Abra record field, as the pydantic model and the database hold it. */
  datatype Value = Null | Str(s: string) | Num(x: real) | Flag(b: bool)

  /** _xml_get_bool: true exactly when the tag's raw text, lower-cased but not trimmed, is "true" or "1". */
  function GetBool(tag: string, e: Element): (r: bool)
    ensures r <==> FindText(e, tag).Some? && (Lower(FindText(e, tag).value) == "true" || Lower(FindText(e, tag).value) == "1")
    ensures FindText(e, tag).None? || FindText(e, tag) == Some("") ==> !r
  {
    match FindText(e, tag)
    case None => false
    case Some(t) => if t == "" then false else Lower(t) == "true" || Lower(t) == "1"
  }

  /** _xml_get_float: float() of the tag's text; absent, empty or unparsable text has no value. */
  function GetFloat(tag: string, e: Element): (r: Option<real>)
    ensures r.Some? <==> FindText(e, tag).Some? && ParseFloat(FindText(e, tag).value).Some?
    ensures r.Some? ==> r == ParseFloat(FindText(e, tag).value)
    ensures FindText(e, tag) == Some("") ==> r.None?
  {
    match FindText(e, tag)
    case None => None
    case Some(t) => if t == "" then None else ParseFloat(t)
  }

  /**
   * _xml_get_text: the tag's text with its surrounding whitespace removed; absent and empty
   * text have no value, while whitespace-only text gives "".
   */
  function GetText(tag: string, e: Element): (r: Option<string>)
    ensures r.None? <==> FindText(e, tag).None? || FindText(e, tag) == Some("")
    ensures r.Some? ==> (r.value == "" <==> AllSpace(FindText(e, tag).value))
    ensures r.Some? ==> r.value == [] || (!IsSpace(r.value[0]) && !IsSpace(r.value[|r.value| - 1]))
  {
    match FindText(e, tag)
    case None => None
    case Some(t) =>
      if t == "" then None
      else
        StripEmptyIffAllSpace(t);
        Some(Strip(t))
  }

  /**
   * _xml_get_date: the tag's text is stripped (an absent tag makes that raise AttributeError),
   * blank text has no date, and anything else goes through the date normaliser.
   */
  function GetDate(tag: string, e: Element): (r: Result<Option<string>>)
    ensures r.Err? ==> (FindText(e, tag).None? && r.error.AttributeError?) || r.error.ValueError?
    ensures FindText(e, tag).None? ==> r.Err? && r.error.AttributeError?
  {
    match FindText(e, tag)
    case None => Err(AttributeError("'NoneType' object has no attribute 'strip'"))
    case Some(t) =>
      var s := Strip(t);
      if s == "" then Ok(None)
      else
        var p := ParseDate(Some(s));
        assert p.Err? ==> p.error.ValueError? by {
          StripEmptyIffAllSpace(s);
          StripIdempotent(t);
          ParseDateOutcome(s);
        }
        p
  }

  /** For a tag that is present, reading a date is the date normaliser applied to its raw text: stripping twice changes nothing. */
  lemma GetDateIsParseDate(tag: string, e: Element)
    requires FindText(e, tag).Some?
    ensures GetDate(tag, e) == ParseDate(FindText(e, tag))
  {
    var t := FindText(e, tag).value;
    StripIdempotent(t);
    if Strip(t) == "" {
      StripEmptyIffAllSpace(t);
    }
  }

  /** A date read from the source is already in normal form, so normalising it again gives it back. */
  lemma GetDateNormal(tag: string, e: Element)
    requires GetDate(tag, e).Ok? && GetDate(tag, e).value.Some?
    ensures ParseDate(GetDate(tag, e).value) == GetDate(tag, e)
  {
    GetDateIsParseDate(tag, e);
    ParseDateIdempotent(FindText(e, tag).value, GetDate(tag, e).value.value);
  }

  /** The kind of coercion a field of an Abra record gets. */
  datatype Kind = TextKind | FloatKind | BoolKind | DateKind

  /** The value of one field: the reader of its kind applied to the tag. Only a date can raise. */
  function Leaf(tag: string, kind: Kind, e: Element): (r: Result<Value>)
    ensures r.Err? ==> kind == DateKind
    ensures kind == BoolKind ==> r == Ok(Flag(GetBool(tag, e)))
    ensures kind == TextKind ==> r.Ok? && (r.value.Null? <==> GetText(tag, e).None?)
    ensures kind == FloatKind ==> r.Ok? && (r.value.Null? <==> GetFloat(tag, e).None?)
  {
    match kind
    case BoolKind => Ok(Flag(GetBool(tag, e)))
    case FloatKind => Ok(match GetFloat(tag, e) case None => Null case Some(x) => Num(x))
    case TextKind => Ok(match GetText(tag, e) case None => Null case Some(s) => Str(s))
    case DateKind =>
      match GetDate(tag, e)
      case Err(err) => Err(err)
      case Ok(None) => Ok(Null)
      case Ok(Some(s)) => Ok(Str(s))
  }

  /** An element with one child `tag` holding `text`. */
  function WithChild(tag: string, text: string): Element {
    Element("item", [], None, [Element(tag, [], Some(text), [])])
  }

  /** The boolean reader does not trim: " true" is false, while "TRUE" is true. */
  lemma GetBoolExamples()
    ensures !GetBool("storno", WithChild("storno", " true"))
    ensures GetBool("storno", WithChild("storno", "TRUE"))
    ensures GetBool("storno", WithChild("storno", "1"))
  {
    assert Lower(" true") != "true" by {
      assert Lower(" true")[0] == ' ';
    }
    assert Lower("TRUE") == "true";
  }
}
