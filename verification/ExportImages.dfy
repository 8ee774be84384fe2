/**
 The pictures of an export (internal/docs/export_images.go): every image source is resolved to a file
 the server named, or dropped, and a filter table lists those files.
 */
module ExportImages {
  import opened Wrappers
  import opened LuaText
  import opened Text

  datatype Mime = PNG | JPEG | GIF | WEBP | BMP | SVG

  /** What decoding a data URL or loading an asset gives, once its bytes were sniffed as a picture. */
  datatype Picture = Picture(data: seq<int>, mime: Mime)

  datatype Image = Image(name: string, path: string, mime: Mime, size: nat)

  const MAX_IMAGE_BYTES: nat := 20 * 0x100000
  const MAX_IMAGES_BYTES: nat := 64 * 0x100000
  const MAX_IMAGES: nat := 1000

  function Ext(m: Mime): (s: string)
    ensures IsBytes(s)
  {
    match m
    case PNG => "png"
    case JPEG => "jpg"
    case GIF => "gif"
    case WEBP => "webp"
    case BMP => "bmp"
    case SVG => "svg"
  }

  function MimeText(m: Mime): (s: string)
    ensures IsBytes(s)
  {
    "image" + "/" + match m
                    case PNG => "png"
                    case JPEG => "jpeg"
                    case GIF => "gif"
                    case WEBP => "webp"
                    case BMP => "bmp"
                    case SVG => "svg" + "+" + "xml"
  }

  const PREFIX: string := "grown" + "-" + "img" + "-"

  function Name(n: nat, m: Mime): string { PREFIX + Decimal(n) + "." + Ext(m) }

  function DigitsOf(s: string): (d: string)
    ensures forall i :: 0 <= i < |d| ==> IsDigit(d[i])
  {
    if s == [] || !IsDigit(s[0]) then [] else [s[0]] + DigitsOf(s[1..])
  }

  lemma {:induction false} DigitsStop(d: string, rest: string)
    requires (forall i :: 0 <= i < |d| ==> IsDigit(d[i])) && (rest == [] || !IsDigit(rest[0]))
    ensures DigitsOf(d + rest) == d
  {
    if d == [] {
      assert d + rest == rest;
    } else {
      assert (d + rest)[1..] == d[1..] + rest;
      DigitsStop(d[1..], rest);
    }
  }

  /** Names tell their numbers apart, whatever the types. */
  lemma NamesDiffer(a: nat, m: Mime, b: nat, n: Mime)
    ensures Name(a, m) == Name(b, n) ==> a == b
  {
    hide Ext;
    var k := |PREFIX|;
    assert Name(a, m)[k..] == Decimal(a) + ("." + Ext(m));
    assert Name(b, n)[k..] == Decimal(b) + ("." + Ext(n));
    DigitsStop(Decimal(a), "." + Ext(m));
    DigitsStop(Decimal(b), "." + Ext(n));
    DecimalReadsBack(a);
    DecimalReadsBack(b);
  }

  function TotalSize(images: seq<Image>): nat {
    if images == [] then 0 else TotalSize(images[..|images| - 1]) + images[|images| - 1].size
  }

  // ---- Tokens of the HTML ------------------------------------------------------------------------

  /** As the tokenizer gives them: an img tag with its attributes, or any other token's raw text. */
  datatype Token = Raw(text: string) | Img(attrs: seq<(string, string)>)

  datatype Attr = Src | SrcSet | Other

  predicate IsNameChar(c: char) {
    'a' <= c <= 'z' || IsDigit(c) || c == '-' || c == '_' || c == ':' || c == '.'
  }

  predicate ValidAttrName(k: string) {
    k != "" && forall i :: 0 <= i < |k| ==> IsNameChar(k[i])
  }

  function Kind(name: string): Attr {
    if name == "src" then Src else if name == "src" + "set" then SrcSet else Other
  }

  /** html.EscapeString. */
  function Escape(s: string): string {
    if s == [] then []
    else
      Escape(s[..|s| - 1]) +
      match s[|s| - 1]
      case '&' => "&amp;"
      case '\'' => "&#39;"
      case '<' => "&lt;"
      case '>' => "&gt;"
      case '"' => "&#34;"
      case c => [c]
  }

  /** One attribute of an img tag; sources are what each src became. */
  function PrintedAttr(attr: (string, string), sources: map<string, string>): string {
    match Kind(attr.0)
    case Src => if attr.1 in sources then " src=\"" + Escape(sources[attr.1]) + "\"" else []
    case SrcSet => []
    case Other => if ValidAttrName(attr.0) then " " + attr.0 + "=\"" + Escape(attr.1) + "\"" else []
  }

  function PrintedAttrs(attrs: seq<(string, string)>, sources: map<string, string>): string {
    if attrs == [] then [] else PrintedAttrs(attrs[..|attrs| - 1], sources) + PrintedAttr(attrs[|attrs| - 1], sources)
  }

  function PrintedToken(t: Token, sources: map<string, string>): string {
    if t.Raw? then t.text else "<img" + PrintedAttrs(t.attrs, sources) + ">"
  }

  /** The rewritten document, given what every src became: one table for the whole document. */
  function Printed(tokens: seq<Token>, sources: map<string, string>): string {
    if tokens == [] then [] else Printed(tokens[..|tokens| - 1], sources) + PrintedToken(tokens[|tokens| - 1], sources)
  }

  /** Every src of the tag has been resolved. */
  predicate Resolved(attrs: seq<(string, string)>, sources: map<string, string>) {
    forall i :: 0 <= i < |attrs| && Kind(attrs[i].0).Src? ==> attrs[i].1 in sources
  }

  predicate AllResolved(tokens: seq<Token>, sources: map<string, string>) {
    forall i :: 0 <= i < |tokens| && tokens[i].Img? ==> Resolved(tokens[i].attrs, sources)
  }

  predicate Extends(a: map<string, string>, b: map<string, string>) {
    forall s :: s in a ==> s in b && b[s] == a[s]
  }

  /** Later resolutions do not change what was printed. */
  lemma {:induction false} PrintedAttrsStay(attrs: seq<(string, string)>, a: map<string, string>,
                                           b: map<string, string>)
    requires Resolved(attrs, a) && Extends(a, b)
    ensures PrintedAttrs(attrs, a) == PrintedAttrs(attrs, b)
  {
    if attrs != [] {
      hide Escape, Kind;
      PrintedAttrsStay(attrs[..|attrs| - 1], a, b);
    }
  }

  lemma {:induction false} PrintedStays(tokens: seq<Token>, a: map<string, string>, b: map<string, string>)
    requires AllResolved(tokens, a) && Extends(a, b)
    ensures Printed(tokens, a) == Printed(tokens, b)
  {
    if tokens != [] {
      hide PrintedAttrs, Resolved;
      PrintedStays(tokens[..|tokens| - 1], a, b);
      var last := tokens[|tokens| - 1];
      if last.Img? { PrintedAttrsStay(last.attrs, a, b); }
    }
  }

  // ---- The table ---------------------------------------------------------------------------------

  ghost predicate HasName(images: seq<Image>, name: string) {
    exists i :: 0 <= i < |images| && images[i].name == name
  }

  lemma NamesStay(images: seq<Image>, image: Image)
    ensures forall n :: HasName(images, n) ==> HasName(images + [image], n)
  {
    forall n | HasName(images, n)
      ensures HasName(images + [image], n)
    {
      var i :| 0 <= i < |images| && images[i].name == n;
      assert (images + [image])[i].name == n;
    }
  }

  class Export {
    const dir: string
    var bySrc: map<string, string>
    var images: seq<Image>
    var total: nat
    var disk: map<string, Picture>

    /** Numbered names under dir, the running total, both caps, and every source dropped or named. */
    ghost predicate Valid()
      reads this
    {
      && |images| <= MAX_IMAGES && total == TotalSize(images) && total <= MAX_IMAGES_BYTES
      && (forall i :: 0 <= i < |images| ==>
            && images[i].name == Name(i + 1, images[i].mime) && images[i].path == dir + "/" + images[i].name
            && images[i].size <= MAX_IMAGE_BYTES)
      && (forall s :: s in bySrc ==> bySrc[s] == "" || Named(bySrc[s]))
    }

    /** The filter table has an entry of this name. */
    ghost predicate Named(name: string)
      reads this
    {
      HasName(images, name)
    }

    constructor (dir: string)
      ensures Valid() && this.dir == dir && bySrc == map[] && images == [] && disk == map[]
    {
      this.dir := dir;
      bySrc, images, total, disk := map[], [], 0, map[];
    }

    /** picture is what fetching src gives; writeFails says that its file cannot be written. A picture is
        kept exactly when it fits both caps and the count. */
    method Load(picture: Option<Picture>, writeFails: bool) returns (name: string)
      requires Valid()
      modifies this`images, this`total, this`disk
      ensures Valid()
      ensures var fits := picture.Some? && |picture.value.data| <= MAX_IMAGE_BYTES &&
                          old(total) + |picture.value.data| <= MAX_IMAGES_BYTES && |old(images)| < MAX_IMAGES &&
                          !writeFails;
              if !fits then name == "" && images == old(images) && total == old(total) && disk == old(disk)
              else
                && name == Name(|old(images)| + 1, picture.value.mime) && Named(name)
                && images == old(images) + [Image(name, dir + "/" + name, picture.value.mime, |picture.value.data|)]
                && disk == old(disk)[dir + "/" + name := picture.value]
    {
      hide Name, Ext;
      if picture.None? { return ""; }
      var data, mime := picture.value.data, picture.value.mime;
      if |data| > MAX_IMAGE_BYTES || total + |data| > MAX_IMAGES_BYTES || |images| >= MAX_IMAGES { return ""; }
      name := Name(|images| + 1, mime);
      var path := dir + "/" + name;
      if writeFails { return ""; }
      disk := disk[path := picture.value];
      ghost var was := images;
      total := total + |data|;
      images := images + [Image(name, path, mime, |data|)];
      assert images[..|images| - 1] == was && images[|was|].name == name;
      assert forall n :: HasName(was, n) ==> HasName(images, n) by { NamesStay(was, images[|was|]); }
    }

    /** A source is fetched once; the same source always gives the same name afterwards. */
    method Resolve(src: string, picture: Option<Picture>, writeFails: bool) returns (name: string)
      requires Valid()
      modifies this
      ensures Valid() && (name == "" || Named(name))
      ensures src in bySrc && bySrc[src] == name && Extends(old(bySrc), bySrc)
      ensures src in old(bySrc) ==> bySrc == old(bySrc) && images == old(images) && disk == old(disk)
      ensures old(images) <= images
    {
      if src in bySrc { return bySrc[src]; }
      name := Load(picture, writeFails);
      bySrc := bySrc[src := name];
    }

    /** The document comes out as it went in, but for its img tags, and those all follow one table: every
        src is empty or names a picture of the filter table, equal sources the same one. fetch and
        fails are what fetching and writing each source gives. */
    method Rewrite(tokens: seq<Token>, fetch: string -> Option<Picture>, fails: string -> bool) returns (out: string)
      requires Valid()
      modifies this
      ensures Valid() && AllResolved(tokens, bySrc) && Extends(old(bySrc), bySrc)
      ensures out == Printed(tokens, bySrc)
    {
      hide Valid, Printed, PrintedAttrs, PrintedAttr, Kind, Escape;
      out := "";
      assert Printed(tokens[..0], bySrc) == [] by { PrintedNothing(bySrc); assert tokens[..0] == []; }
      for i := 0 to |tokens|
        invariant Valid() && AllResolved(tokens[..i], bySrc) && Extends(old(bySrc), bySrc)
        invariant out == Printed(tokens[..i], bySrc)
      {
        ghost var before := bySrc;
        var printed;
        if tokens[i].Raw? {
          printed := tokens[i].text;
        } else {
          printed := RewriteTag(tokens[i].attrs, fetch, fails);
        }
        PrintedStays(tokens[..i], before, bySrc);
        PrintedOneMore(tokens, i, bySrc);
        out := out + printed;
      }
      assert tokens[..|tokens|] == tokens;
    }

    method RewriteTag(attrs: seq<(string, string)>, fetch: string -> Option<Picture>, fails: string -> bool)
      returns (out: string)
      requires Valid()
      modifies this
      ensures Valid() && Resolved(attrs, bySrc) && Extends(old(bySrc), bySrc)
      ensures out == PrintedToken(Img(attrs), bySrc)
    {
      hide Valid, PrintedAttrs, PrintedAttr, Kind, Escape;
      var body := "";
      assert PrintedAttrs(attrs[..0], bySrc) == [] by { AttrsNothing(bySrc); assert attrs[..0] == []; }
      for i := 0 to |attrs|
        invariant Valid() && Resolved(attrs[..i], bySrc) && Extends(old(bySrc), bySrc)
        invariant body == PrintedAttrs(attrs[..i], bySrc)
      {
        ghost var before := bySrc;
        var printed := RewriteAttr(attrs[i], fetch, fails);
        PrintedAttrsStay(attrs[..i], before, bySrc);
        AttrsOneMore(attrs, i, bySrc);
        body := body + printed;
      }
      assert attrs[..|attrs|] == attrs;
      out := "<img" + body + ">";
    }

    method RewriteAttr(a: (string, string), fetch: string -> Option<Picture>, fails: string -> bool)
      returns (printed: string)
      requires Valid()
      modifies this
      ensures Valid() && (Kind(a.0).Src? ==> a.1 in bySrc) && Extends(old(bySrc), bySrc)
      ensures printed == PrintedAttr(a, bySrc)
    {
      hide Valid, Kind, Escape;
      match Kind(a.0)
      case Src =>
        var name := Resolve(a.1, fetch(a.1), fails(a.1));
        printed := " src=\"" + Escape(name) + "\"";
      case SrcSet =>
        printed := [];
      case Other =>
        printed := if ValidAttrName(a.0) then " " + a.0 + "=\"" + Escape(a.1) + "\"" else [];
    }

    /** The filter table: Lua reads each entry's key, path and type as the picture's. */
    method Filter() returns (entries: seq<(string, string, string)>)
      requires Valid() && IsBytes(dir)
      ensures |entries| == |images|
      ensures forall i :: 0 <= i < |images| ==>
                && Literal(entries[i].0) == Some(images[i].name) && Literal(entries[i].1) == Some(images[i].path)
                && Literal(entries[i].2) == Some(MimeText(images[i].mime))
    {
      hide Literal, Name, Ext, MimeText;
      entries := [];
      for i := 0 to |images|
        invariant |entries| == i
        invariant forall k :: 0 <= k < i ==>
                    && Literal(entries[k].0) == Some(images[k].name) && Literal(entries[k].1) == Some(images[k].path)
                    && Literal(entries[k].2) == Some(MimeText(images[k].mime))
      {
        var im := images[i];
        NameIsBytes(i + 1, im.mime);
        var key := LuaString(im.name);
        var path := LuaString(im.path);
        var mime := LuaString(MimeText(im.mime));
        entries := entries + [(key, path, mime)];
      }
    }

    /** No two pictures share a name. */
    lemma NamesAreDistinct(i: nat, j: nat)
      requires Valid() && i < j < |images|
      ensures images[i].name != images[j].name
    {
      NamesDiffer(i + 1, images[i].mime, j + 1, images[j].mime);
    }
  }

  lemma NameIsBytes(n: nat, m: Mime)
    ensures IsBytes(Name(n, m))
  {
  }

  lemma PrintedNothing(sources: map<string, string>)
    ensures Printed([], sources) == []
  {
  }

  lemma AttrsNothing(sources: map<string, string>)
    ensures PrintedAttrs([], sources) == []
  {
  }

  lemma PrintedOneMore(tokens: seq<Token>, i: nat, sources: map<string, string>)
    requires i < |tokens|
    ensures Printed(tokens[..i + 1], sources) == Printed(tokens[..i], sources) + PrintedToken(tokens[i], sources)
  {
    assert tokens[..i + 1][..i] == tokens[..i];
  }

  lemma AttrsOneMore(attrs: seq<(string, string)>, i: nat, sources: map<string, string>)
    requires i < |attrs|
    ensures PrintedAttrs(attrs[..i + 1], sources) == PrintedAttrs(attrs[..i], sources) + PrintedAttr(attrs[i], sources)
  {
    assert attrs[..i + 1][..i] == attrs[..i];
  }

  /** What is printed between an attribute's quotes cannot end it. */
  lemma {:induction false} EscapedHasNoQuote(s: string)
    ensures '"' !in Escape(s) && '<' !in Escape(s) && '>' !in Escape(s)
  {
    if s != [] {
      EscapedHasNoQuote(s[..|s| - 1]);
    }
  }
}
