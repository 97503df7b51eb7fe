/** The pieces of the web interface's views that are plain logic: label
    unescaping, the display-length limit and its `truncated` flag, the
    choice of template for a data file, and the `delete_data` flag. */
module Views {
  import opened Results
  import opened Strings

  // ------------------------------------------------------------- labels

  /** Labels travel in URLs with each `/` written as `||`. */
  function Unescape(name: string): string
  {
    Replace(name, "||", "/")
  }

  /** The escaping `Unescape` undoes. */
  function Escape(name: string): string
  {
    Replace(name, "/", "||")
  }

  lemma {:induction false} UnescapeEscape(name: string)
    requires '|' !in name
    ensures Unescape(Escape(name)) == name
    decreases |name|
  {
    if |name| > 0 {
      var rest := name[1..];
      UnescapeEscape(rest);
      if name[0] == '/' {
        assert name[..1] == "/";
        assert Escape(name) == "||" + Escape(rest);
        assert ("||" + Escape(rest))[..2] == "||";
        assert ("||" + Escape(rest))[2..] == Escape(rest);
      } else {
        assert name[..1] != "/";
        assert Escape(name) == [name[0]] + Escape(rest);
        assert Escape(name)[0] == name[0];
        if |Escape(name)| >= 2 {
          assert Escape(name)[..2] != "||";
        }
        assert ([name[0]] + Escape(rest))[1..] == Escape(rest);
      }
      assert name == [name[0]] + rest;
    }
  }

  /** Where the first two characters are not `||`, a string holds `||`
      exactly where its tail does. */
  lemma ContainsStep(name: string)
    requires |name| >= 2 && name[..2] != "||"
    ensures Contains(name, "||") <==> Contains(name[1..], "||")
  {
    if Contains(name[1..], "||") {
      var i: nat :| i <= |name[1..]| && OccursAt(name[1..], "||", i);
      assert name[i + 1..i + 3] == name[1..][i..i + 2];
      assert OccursAt(name, "||", i + 1);
    }
    if Contains(name, "||") {
      var i: nat :| i <= |name| && OccursAt(name, "||", i);
      assert i != 0;
      assert name[1..][i - 1..i + 1] == name[i..i + 2];
      assert OccursAt(name[1..], "||", i - 1);
    }
  }

  lemma ContainsShort(name: string)
    requires |name| < 2
    ensures !Contains(name, "||")
  {
  }

  /** A label without `||` is left alone; one with it comes back shorter. */
  lemma {:induction false} UnescapeChanges(name: string)
    ensures !Contains(name, "||") ==> Unescape(name) == name
    ensures Contains(name, "||") ==> |Unescape(name)| < |name|
    ensures |Unescape(name)| <= |name|
    decreases |name|
  {
    if |name| < 2 {
      ContainsShort(name);
    } else if name[..2] == "||" {
      UnescapeChanges(name[2..]);
      assert OccursAt(name, "||", 0);
    } else {
      UnescapeChanges(name[1..]);
      ContainsStep(name);
      assert name == [name[0]] + name[1..];
    }
  }

  /** Unescaping changes a label exactly when it holds `||`. */
  lemma UnescapeChangesIff(name: string)
    ensures Contains(name, "||") <==> Unescape(name) != name
  {
    UnescapeChanges(name);
  }

  // ------------------------------------------------ display-length limit

  /** `DEFAULT_MAX_DISPLAY_LENGTH`: 10 KiB. */
  const DefaultMaxDisplayLength := 10 * 1024

  datatype ValueError = InvalidLiteral(text: string)

  /** The `truncate` query parameter, if given: `None` for no limit,
      `Some(n)` for `n` characters; a value that is neither "false" in any
      case nor an integer raises `ValueError`. */
  function MaxDisplayLength(truncate: Option<string>): Result<Option<int>, ValueError>
  {
    match truncate
    case None => Ok(Some(DefaultMaxDisplayLength))
    case Some(t) =>
      if Lower(t) == "false" then Ok(None)
      else match ParseInt(t)
        case Some(n) => Ok(Some(n * 1024))
        case None => Err(InvalidLiteral(t))
  }

  /** The content is flagged as truncated when a limit is set and the
      content reached it. */
  predicate Truncated(maxLength: Option<int>, content: string)
  {
    maxLength.Some? && |content| >= maxLength.value
  }

  /** What the limit means: an integer `n` asks for `n` KiB, "false" in any
      case lifts the limit, and no parameter gives the default. */
  lemma MaxDisplayLengthReads(t: string, n: int)
    ensures MaxDisplayLength(None) == Ok(Some(DefaultMaxDisplayLength))
    ensures Lower(t) == "false" ==> MaxDisplayLength(Some(t)) == Ok(None)
    ensures MaxDisplayLength(Some(IntToString(n))) == Ok(Some(n * 1024))
  {
    ReadsInteger(n);
  }

  lemma ReadsInteger(n: int)
    ensures MaxDisplayLength(Some(IntToString(n))) == Ok(Some(n * 1024))
  {
    ParseIntToString(n);
  }

  /** A limit is either absent, or present and then malformed values raise. */
  lemma MaxDisplayLengthFails(t: string)
    ensures MaxDisplayLength(Some(t)).Err? <==> Lower(t) != "false" && ParseInt(t).None?
  {
  }

  /** When the content is at most `limit` characters of the data, a content
      not flagged as truncated is all of it; without a limit, nothing is
      ever flagged. */
  lemma TruncatedMeansCut(data: string, limit: nat)
    ensures !Truncated(Some(limit), Take(data, limit)) ==> Take(data, limit) == data
    ensures |data| > limit ==> Truncated(Some(limit), Take(data, limit))
    ensures !Truncated(None, data)
  {
  }

  /** The `truncated` entry of a data file's page: the limit is read
      first, and the flag is set only for the types whose content is shown. */
  function TruncatedEntry(mimetype: string, truncate: Option<string>, content: string): Result<Option<bool>, ValueError>
  {
    match MaxDisplayLength(truncate)
    case Err(e) => Err(e)
    case Ok(limit) => if IsContentType(mimetype) then Ok(Some(Truncated(limit, content))) else Ok(None)
  }

  /** With no parameter, shown content is flagged once it reaches 10 KiB;
      with "false" it never is; other types carry no flag. */
  lemma TruncatedEntryCases(mimetype: string, t: string, content: string)
    ensures IsContentType(mimetype) ==>
      TruncatedEntry(mimetype, None, content) == Ok(Some(|content| >= DefaultMaxDisplayLength))
    ensures IsContentType(mimetype) && Lower(t) == "false" ==>
      TruncatedEntry(mimetype, Some(t), content) == Ok(Some(false))
    ensures !IsContentType(mimetype) ==> TruncatedEntry(mimetype, None, content) == Ok(None)
    ensures TruncatedEntry(mimetype, Some(t), content).Err? <==> MaxDisplayLength(Some(t)).Err?
  {
  }

  // ------------------------------------------------------------ templates

  const ImageTemplate := "data_detail_image.html"
  const CsvTemplate := "data_detail_csv.html"
  const TextTemplate := "data_detail_text.html"
  const ZipTemplate := "data_detail_zip.html"
  const BaseTemplate := "data_detail_base.html"

  predicate IsImageType(mimetype: string)
  {
    mimetype == "image/png" || mimetype == "image/jpeg" || mimetype == "image/gif" || mimetype == "image/x-png"
  }

  /** The types whose content the detail page shows. */
  predicate IsContentType(mimetype: string)
  {
    mimetype == "text/csv" || mimetype == "text/plain" || mimetype == "application/zip"
  }

  /** The template for a data file's stored type. */
  function TemplateName(mimetype: string): string
  {
    if IsImageType(mimetype) then ImageTemplate
    else if mimetype == "text/csv" then CsvTemplate
    else if mimetype == "text/plain" then TextTemplate
    else if mimetype == "application/zip" then ZipTemplate
    else BaseTemplate
  }

  datatype TemplateError = NotImplemented

  /** `get_template_names`: a file whose path suggests gzip encoding is not
      supported; otherwise the template follows the stored type. */
  function GetTemplateName(mimetype: string, encoding: Option<string>): (r: Result<string, TemplateError>)
    ensures r.Err? <==> encoding == Some("gzip")
  {
    if encoding == Some("gzip") then Err(NotImplemented) else Ok(TemplateName(mimetype))
  }

  /** Images share one template, every type whose content is shown has its
      own, and every other type falls back to the base page. */
  lemma TemplateNameClassifies(mimetype: string)
    ensures TemplateName(mimetype) == ImageTemplate <==> IsImageType(mimetype)
    ensures TemplateName(mimetype) == BaseTemplate <==> !IsImageType(mimetype) && !IsContentType(mimetype)
    ensures TemplateName(mimetype) == CsvTemplate <==> mimetype == "text/csv"
    ensures TemplateName(mimetype) == TextTemplate <==> mimetype == "text/plain"
    ensures TemplateName(mimetype) == ZipTemplate <==> mimetype == "application/zip"
  {
    TemplatesDistinct();
  }

  lemma TemplatesDistinct()
    ensures ImageTemplate != CsvTemplate && ImageTemplate != TextTemplate && ImageTemplate != ZipTemplate
    ensures ImageTemplate != BaseTemplate && CsvTemplate != TextTemplate && CsvTemplate != ZipTemplate
    ensures CsvTemplate != BaseTemplate && TextTemplate != ZipTemplate && TextTemplate != BaseTemplate
    ensures ZipTemplate != BaseTemplate
  {
    assert ImageTemplate[12] == 'i' && CsvTemplate[12] == 'c' && TextTemplate[12] == 't';
    assert ZipTemplate[12] == 'z' && BaseTemplate[12] == 'b';
  }

  // ---------------------------------------------------------- delete flag

  datatype KeyError = MissingKey(key: string)

  /** The `delete_data` form field: absent means `False`; the strings a
      script sends for booleans map to them; any other string is a
      `KeyError`. */
  function DeleteData(field: Option<string>): Result<bool, KeyError>
  {
    match field
    case None => Ok(false)
    case Some(s) =>
      if s == "false" then Ok(false)
      else if s == "true" then Ok(true)
      else Err(MissingKey(s))
  }

  /** How a script writes a boolean. */
  function BoolText(b: bool): string
  {
    if b then "true" else "false"
  }

  /** Reading a written boolean gives it back, and only those two strings
      are accepted. */
  lemma DeleteDataReads(b: bool, field: Option<string>)
    ensures DeleteData(Some(BoolText(b))) == Ok(b)
    ensures DeleteData(field).Ok? <==> field.None? || field == Some("true") || field == Some("false")
  {
  }
}
