/**
 The picture of one step of a care guide (showGuiaDetalhes in chat.js): the
 step's `imagem` text becomes an absolute http(s) address, or no picture at
 all. Percent-encoding of the address (encodeURI) is not part of the model.
 */
module GuideImage {
  import opened Text

  predicate HasScheme(url: string) {
    "http://" <= url || "https://" <= url
  }

  /** The scheme prepended to a trimmed address, if any. */
  function SchemeFix(url: string): (p: Option<string>)
    ensures p.Some? <==> HasScheme(url) || '.' in url || "//" <= url
    ensures p.Some? ==> HasScheme(p.value + url)
  {
    if HasScheme(url) then Some("")
    else if '.' in url || "//" <= url then
      if "//" <= url then
        assert "https:" + url == "https:" + "//" + url[2..];
        Some("https:")
      else Some("https://")
    else None
  }

  /** The address of the step's image, None when no image is shown. */
  function ImageUrl(imagem: Option<string>): (r: Option<string>)
    ensures r.Some? ==> HasScheme(r.value)
    ensures r.Some? <==>
      Truthy(imagem) && JsTrim(imagem.value) != "" &&
      (HasScheme(JsTrim(imagem.value)) || '.' in JsTrim(imagem.value) || "//" <= JsTrim(imagem.value))
  {
    if !Truthy(imagem) then None
    else
      var url := JsTrim(imagem.value);
      if url == "" then None
      else
        match SchemeFix(url)
        case None => None
        case Some(prefix) => Some(prefix + url)
  }

  /** Which of the three rules applies, and that the trimmed text is kept
      whole after the prepended scheme. */
  lemma ImageUrlCases(imagem: string)
    requires ImageUrl(Some(imagem)).Some?
    ensures var url := JsTrim(imagem);
      var r := ImageUrl(Some(imagem)).value;
      && (HasScheme(url) ==> r == url)
      && (!HasScheme(url) && "//" <= url ==> r == "https:" + url)
      && (!HasScheme(url) && !("//" <= url) ==> r == "https://" + url && '.' in url)
  {
  }

  /** An address with a scheme and no trailing blank is kept as it is. */
  lemma SchemedAddressKept(r: string)
    requires HasScheme(r) && !IsJsSpace(r[|r| - 1])
    ensures ImageUrl(Some(r)) == Some(r)
  {
    assert r[0] == 'h' by {
      if "http://" <= r { assert r[0] == "http://"[0]; } else { assert r[0] == "https://"[0]; }
    }
    TrimFixed(r, IsJsSpace);
    assert SchemeFix(r) == Some("");
    assert "" + r == r;
  }

  /** An address produced once comes back unchanged when given again: it is
      trimmed and already carries its scheme. */
  lemma ImageUrlIdempotent(imagem: Option<string>)
    requires ImageUrl(imagem).Some?
    ensures ImageUrl(ImageUrl(imagem)) == ImageUrl(imagem)
  {
    var url := JsTrim(imagem.value);
    var r := ImageUrl(imagem).value;
    var prefix := SchemeFix(url).value;
    assert r == prefix + url;
    assert r[|r| - 1] == url[|url| - 1];
    SchemedAddressKept(r);
  }

  /** A trimmed protocol-relative address gets https: in front. */
  lemma ProtocolRelativeGetsHttps(url: string)
    requires "//" <= url && !IsJsSpace(url[|url| - 1])
    ensures ImageUrl(Some(url)) == Some("https:" + url)
  {
    assert url[0] == '/';
    TrimFixed(url, IsJsSpace);
    SchemeFixProtocolRelative(url);
  }

  lemma SchemeFixProtocolRelative(url: string)
    requires "//" <= url
    ensures SchemeFix(url) == Some("https:")
  {
    assert !HasScheme(url) by { assert url[0] == '/'; assert "http://"[0] == 'h'; }
  }
}
