/** The content type `do_GET` announces for a static file. */
module Static {
  import opened Text

  /** The `Content-Type` header chosen from the file name's extension;
      `None` when no header is sent. The four extensions exclude each other,
      so the order of the tests does not matter. */
  function ContentType(path: string): (r: Option<string>)
    ensures r == Some("text/css") <==> EndsWith(path, ".css")
    ensures r == Some("image/jpeg") <==> EndsWith(path, ".jpg") || EndsWith(path, ".jpeg")
    ensures r == Some("image/png") <==> EndsWith(path, ".png")
    ensures r == None <==>
      (!EndsWith(path, ".css") && !EndsWith(path, ".jpg") && !EndsWith(path, ".jpeg") && !EndsWith(path, ".png"))
  {
    ExtensionsExclusive(path);
    if EndsWith(path, ".css") then Some("text/css")
    else if EndsWith(path, ".jpg") || EndsWith(path, ".jpeg") then Some("image/jpeg")
    else if EndsWith(path, ".png") then Some("image/png")
    else None
  }

  /** Of two suffixes of one string, the shorter is a suffix of the longer. */
  lemma SuffixOfSuffix(s: string, x: string, y: string)
    requires |x| <= |y| && EndsWith(s, x) && EndsWith(s, y)
    ensures EndsWith(y, x)
  {
  }

  lemma ExtensionsExclusive(path: string)
    ensures !(EndsWith(path, ".css") && EndsWith(path, ".jpg"))
    ensures !(EndsWith(path, ".css") && EndsWith(path, ".jpeg"))
    ensures !(EndsWith(path, ".css") && EndsWith(path, ".png"))
    ensures !(EndsWith(path, ".jpg") && EndsWith(path, ".png"))
    ensures !(EndsWith(path, ".jpeg") && EndsWith(path, ".png"))
  {
    if EndsWith(path, ".css") && EndsWith(path, ".jpg") { SuffixOfSuffix(path, ".css", ".jpg"); }
    if EndsWith(path, ".css") && EndsWith(path, ".jpeg") { SuffixOfSuffix(path, ".css", ".jpeg"); }
    if EndsWith(path, ".css") && EndsWith(path, ".png") { SuffixOfSuffix(path, ".css", ".png"); }
    if EndsWith(path, ".jpg") && EndsWith(path, ".png") { SuffixOfSuffix(path, ".jpg", ".png"); }
    if EndsWith(path, ".jpeg") && EndsWith(path, ".png") { SuffixOfSuffix(path, ".png", ".jpeg"); }
  }
}
