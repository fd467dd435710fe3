/**
 * The image table of the jewel images: every file of the image directory is
 * filed under the colour named by the part of its name before the first
 * underscore; a later file with the same prefix replaces an earlier one.
 * The directory listing and the decoded images are inputs: a listing is a
 * sequence of file names, each with an opaque image handle.
 */
module ImageLoading {
  import opened Wrappers
  import opened GameModel

  /** One entry of the directory listing: a file name and its decoded image. */
  datatype ImageFile<+Img> = ImageFile(name: string, image: Img)

  /** Why construction aborts on a file name. */
  datatype LoadError =
    | NoUnderscore(name: string)    // substring(0, -1) throws
    | NoSuchColour(prefix: string)  // Colour.valueOf throws

  /** String.indexOf for one character: the first position of ch in s, or -1. */
  function IndexOf(s: string, ch: char): (r: int)
    ensures -1 <= r < |s|
    ensures r == -1 <==> ch !in s
    ensures 0 <= r ==> s[r] == ch && ch !in s[..r]
  {
    if s == [] then -1
    else if s[0] == ch then 0
    else
      var k := IndexOf(s[1..], ch);
      assert s == [s[0]] + s[1..];
      if k < 0 then -1
      else
        assert s[..k + 1] == [s[0]] + s[1..][..k];
        k + 1
  }

  /** p is the part of name before its first underscore. */
  predicate PrefixBeforeUnderscore(p: string, name: string) {
    |p| < |name| && name[..|p|] == p && name[|p|] == '_' && '_' !in p
  }

  /** The colour a file name is filed under, or why the constructor throws on it. */
  function ColourKey(name: string, palette: set<string>): (r: Result<Colour, LoadError>)
    ensures '_' !in name ==> r == Err(NoUnderscore(name))
    ensures r.Ok? ==> PrefixBeforeUnderscore(r.value.name, name) && r.value.name in palette
    ensures r.Err? && '_' in name ==>
              r.error.NoSuchColour? && PrefixBeforeUnderscore(r.error.prefix, name) && r.error.prefix !in palette
  {
    var underScorePos := IndexOf(name, '_');
    if underScorePos < 0 then Err(NoUnderscore(name))
    else
      var prefix := name[..underScorePos];
      assert |prefix| == underScorePos;
      match ValueOf(palette, prefix)
      case None => Err(NoSuchColour(prefix))
      case Some(colour) => Ok(colour)
  }

  /**
   * The first underscore decides the prefix: it is unique. This is why
   * ColourKey's ensures determine the key of a name.
   */
  lemma PrefixUnique(p: string, q: string, name: string)
    requires PrefixBeforeUnderscore(p, name) && PrefixBeforeUnderscore(q, name)
    ensures p == q
  {
  }

  /**
   * What the constructor's loop builds from a listing: the table of the keys
   * and images, or the error of the first file it throws on.
   */
  function Load<Img>(files: seq<ImageFile<Img>>, palette: set<string>): (r: Result<map<Colour, Img>, LoadError>)
    ensures r.Ok? ==> forall k :: k in r.value ==> k.name in palette
  {
    if files == [] then Ok(map[])
    else
      var last := files[|files| - 1];
      match Load(files[..|files| - 1], palette)
      case Err(e) => Err(e)
      case Ok(table) =>
        match ColourKey(last.name, palette)
        case Err(e) => Err(e)
        case Ok(key) => Ok(table[key := last.image])
  }

  /** Every file of the listing has a key. */
  predicate AllNamed<Img>(files: seq<ImageFile<Img>>, palette: set<string>) {
    forall i :: 0 <= i < |files| ==> ColourKey(files[i].name, palette).Ok?
  }

  /** Loading succeeds exactly when every file name has a colour key. */
  lemma {:induction false} LoadSucceeds<Img>(files: seq<ImageFile<Img>>, palette: set<string>)
    ensures Load(files, palette).Ok? <==> AllNamed(files, palette)
  {
    if files != [] {
      var init := files[..|files| - 1];
      LoadSucceeds(init, palette);
      assert forall i :: 0 <= i < |init| ==> init[i] == files[i];
    }
  }

  /** Loading aborts with the error of the first file that has no key. */
  lemma {:induction false} LoadFailsAtFirst<Img>(files: seq<ImageFile<Img>>, palette: set<string>, k: nat)
    requires k < |files| && ColourKey(files[k].name, palette).Err?
    requires forall i :: 0 <= i < k ==> ColourKey(files[i].name, palette).Ok?
    ensures Load(files, palette) == Err(ColourKey(files[k].name, palette).error)
  {
    var init := files[..|files| - 1];
    assert forall i :: 0 <= i < |init| ==> init[i] == files[i];
    if k < |files| - 1 {
      LoadFailsAtFirst(init, palette, k);
    } else {
      LoadSucceeds(init, palette);
    }
  }

  /** The position of the last file of the listing filed under colour, or -1 when there is none. */
  function LastIndexOf<Img>(files: seq<ImageFile<Img>>, palette: set<string>, colour: Colour): (r: int)
    ensures -1 <= r < |files|
    ensures 0 <= r ==> ColourKey(files[r].name, palette) == Ok(colour)
    ensures forall j :: r < j < |files| ==> ColourKey(files[j].name, palette) != Ok(colour)
  {
    if files == [] then -1
    else if ColourKey(files[|files| - 1].name, palette) == Ok(colour) then |files| - 1
    else LastIndexOf(files[..|files| - 1], palette, colour)
  }

  /**
   * The loaded table files a colour exactly when some file has that prefix,
   * and holds the image of the last such file.
   */
  lemma {:induction false} LoadTable<Img>(files: seq<ImageFile<Img>>, palette: set<string>, colour: Colour)
    requires Load(files, palette).Ok?
    ensures colour in Load(files, palette).value <==> 0 <= LastIndexOf(files, palette, colour)
    ensures colour in Load(files, palette).value ==>
              Load(files, palette).value[colour] == files[LastIndexOf(files, palette, colour)].image
  {
    if files != [] {
      var init := files[..|files| - 1];
      LoadTable(init, palette, colour);
      var i := LastIndexOf(init, palette, colour);
      assert 0 <= i ==> init[i] == files[i];
    }
  }

  /** The image table; getImage is its lookup. */
  class IMGLoader<Img> {
    var imagemap: map<Colour, Img>
    /** The directory listing the table was built from. */
    ghost const files: seq<ImageFile<Img>>
    /** The names of the colour constants. */
    ghost const palette: set<string>

    ghost predicate Valid()
      reads this
    {
      Load(files, palette) == Ok(imagemap)
    }

    /** Files every image of the listing under the prefix of its name, a later file replacing an earlier one. */
    constructor (listing: seq<ImageFile<Img>>, colours: set<string>)
      requires AllNamed(listing, colours)
      ensures Valid() && files == listing && palette == colours
    {
      files, palette := listing, colours;
      imagemap := map[];
      new;
      for i := 0 to |listing|
        invariant Load(listing[..i], colours) == Ok(imagemap)
      {
        var name := listing[i].name;
        var underScorePos := IndexOf(name, '_');
        assert ColourKey(name, colours).Ok?;
        var key := ValueOf(colours, name[..underScorePos]).value;
        assert listing[..i + 1][..i] == listing[..i];
        imagemap := imagemap[key := listing[i].image];
      }
      assert listing[..|listing|] == listing;
    }

    /** The image filed under colour: that of the last file with its prefix, or None (Java's null). */
    function GetImage(colour: Colour): (r: Option<Img>)
      reads this
      requires Valid()
      ensures var i := LastIndexOf(files, palette, colour);
              r == if i < 0 then None else Some(files[i].image)
    {
      LoadTable(files, palette, colour);
      if colour in imagemap then Some(imagemap[colour]) else None
    }
  }
}
