/** The dotted-pathname helpers of the GUI's utility object: `getPath`
    keeps what precedes the last dot, `getName` what follows it. */
module PathNames {
  import opened Results
  import opened Strings

  /** `getPath`: an absent or empty pathname (both falsy in JavaScript)
      gives the empty path; otherwise the text before the last dot,
      provided that dot is not the first character. */
  function GetPath(pathname: Option<string>): (path: string)
    ensures pathname.None? ==> path == ""
    ensures pathname.Some? ==>
      var p := pathname.value;
      var dot := LastIndexOf(p, '.');
      (dot > 0 ==> path == p[..dot]) && (dot <= 0 ==> path == "")
  {
    match pathname
    case None => ""
    case Some(p) =>
      if |p| == 0 then ""
      else
        var lastdot := LastIndexOf(p, '.');
        if lastdot > 0 then p[..lastdot] else ""
  }

  /** What `getName` throws for an undefined pathname: calling `split` on
      undefined is a TypeError. */
  datatype ScriptError = SplitOfUndefined

  /** The last dot-separated token when there are several, otherwise the
      whole pathname. */
  function LastSegment(pathname: string): string {
    var tok := Split(pathname, '.');
    if |tok| > 1 then tok[|tok| - 1] else pathname
  }

  /** `getName`: the last segment of a defined pathname; an undefined one
      throws. */
  function GetName(pathname: Option<string>): (r: Result<string, ScriptError>)
    ensures r.Err? <==> pathname.None?
  {
    match pathname
    case None => Err(SplitOfUndefined)
    case Some(p) => Ok(LastSegment(p))
  }

  /** The name is the segment after the last dot (the whole pathname when
      there is no dot), so it never contains a dot. */
  lemma NameIsLastSegment(pathname: string)
    ensures LastSegment(pathname) == pathname[LastIndexOf(pathname, '.') + 1..]
    ensures GetName(Some(pathname)) == Ok(pathname[LastIndexOf(pathname, '.') + 1..])
    ensures '.' !in LastSegment(pathname)
    ensures '.' !in pathname ==> LastSegment(pathname) == pathname
  {
    SplitLast(pathname, '.');
    SplitShape(pathname, '.');
    var tok := Split(pathname, '.');
    assert '.' !in tok[|tok| - 1];
  }

  /** When the last dot is past the first character, path, dot and name
      reassemble the pathname. */
  lemma PathDotName(pathname: string)
    requires LastIndexOf(pathname, '.') > 0
    ensures GetPath(Some(pathname)) + "." + LastSegment(pathname) == pathname
  {
    var dot := LastIndexOf(pathname, '.');
    assert LastSegment(pathname) == pathname[dot + 1..] by { NameIsLastSegment(pathname); }
    assert GetPath(Some(pathname)) == pathname[..dot];
    assert pathname[dot] == '.';
    assert pathname == pathname[..dot] + [pathname[dot]] + pathname[dot + 1..];
  }

  /** A pathname whose only dot leads it (".x") has an empty path but
      still a name, so the reassembly above does not hold for it. */
  lemma LeadingDotLosesPath()
    ensures GetPath(Some(".x")) == ""
    ensures GetName(Some(".x")) == Ok("x")
  {
    NameIsLastSegment(".x");
    assert LastIndexOf(".x", '.') == 0 by {
      LastIndexOfIs(".x", '.', 0);
    }
  }
}
