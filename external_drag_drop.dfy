/** The external drag-and-drop hook of `houdini/drag_drop_files/externaldragdrop.py`:
    files dropped on a network editor become nodes of the editor's current
    network, chosen by the file's extension and the kind of network. The
    nodes and Houdini calls the handlers make are recorded as `Action`
    values; the extension lists and node colours of the helper modules are
    parameters and named constants. */
module ExternalDragDrop {
  import opened PyBase
  import opened PyStr

  // ---------------------------------------------------------------------
  // matchTypes: re.compile('(e1|e2|...)$'), used with .search

  /** The alternatives of the compiled pattern, each an escaped literal.
      An empty list joins to the empty pattern `()$`, the one empty
      alternative. */
  function Alternatives(extensions: seq<string>): (alts: seq<string>)
    ensures |alts| > 0
    ensures |extensions| > 0 ==> alts == extensions
  {
    if |extensions| == 0 then [""] else extensions
  }

  /** Where `$` matches without MULTILINE: at the end of the string, or just
      before a newline that ends it. */
  predicate AtEnd(f: string, q: int) {
    q == |f| || (q == |f| - 1 && 0 <= q && f[q] == '\n')
  }

  /** The alternative `e` matches at position `p` and `$` right after it. */
  predicate MatchesAt(f: string, e: string, p: int) {
    OccursAt(f, e, p) && AtEnd(f, p + |e|)
  }

  /** What the regular engine tries at one position: the alternatives in
      their order, the first that lets the whole pattern match. */
  function FirstAt(alts: seq<string>, f: string, p: nat): (r: Option<string>)
    ensures r.Some? ==> r.value in alts && MatchesAt(f, r.value, p)
    ensures r.None? ==> forall e | e in alts :: !MatchesAt(f, e, p)
    ensures r.Some? ==> forall j | 0 <= j < |alts| && alts[j] != r.value :: MatchesAt(f, alts[j], p) ==> exists i | 0 <= i < j :: alts[i] == r.value
    decreases |alts|
  {
    if |alts| == 0 then None
    else if MatchesAt(f, alts[0], p) then Some(alts[0])
    else FirstAt(alts[1..], f, p)
  }

  /** `pattern.search(f)` from position `p` on: the leftmost position where
      the pattern matches, with the alternative that matched there. */
  function SearchFrom(alts: seq<string>, f: string, p: nat): (r: Option<(nat, string)>)
    ensures r.Some? ==> p <= r.value.0 && FirstAt(alts, f, r.value.0) == Some(r.value.1)
    ensures r.Some? ==> forall q, e | p <= q < r.value.0 && e in alts :: !MatchesAt(f, e, q)
    ensures r.None? ==> forall q, e | p <= q && e in alts :: !MatchesAt(f, e, q)
    decreases |f| + 1 - p
  {
    if p > |f| then None
    else match FirstAt(alts, f, p) {
      case Some(e) => Some((p, e))
      case None => SearchFrom(alts, f, p + 1)
    }
  }

  /** `matchTypes(extensions).search(filename)`. */
  function Search(extensions: seq<string>, f: string): Option<(nat, string)> {
    SearchFrom(Alternatives(extensions), f, 0)
  }

  /** `e$` matches somewhere in `f`: `f` ends with `e`, or ends with `e`
      followed by one newline. */
  predicate EndMatch(f: string, e: string) {
    EndsWith(f, e) || (|f| > 0 && f[|f| - 1] == '\n' && EndsWith(f[..|f| - 1], e))
  }

  lemma EndMatchAt(f: string, e: string)
    ensures EndMatch(f, e) <==> MatchesAt(f, e, |f| - |e|) || MatchesAt(f, e, |f| - 1 - |e|)
  {
    if |f| > 0 && f[|f| - 1] == '\n' && |e| + 1 <= |f| {
      assert f[..|f| - 1][|f| - 1 - |e|..] == f[|f| - 1 - |e|..|f| - 1];
    }
  }

  /** A match of `e$` starts where `e` is a suffix, or a suffix before the
      final newline. */
  lemma MatchesAtEnd(f: string, e: string, p: int)
    requires MatchesAt(f, e, p)
    ensures p == |f| - |e| || p == |f| - 1 - |e|
    ensures EndMatch(f, e)
  {
    EndMatchAt(f, e);
  }

  /** `bool(matchTypes(extensions).search(filename))`. */
  predicate MatchTypes(extensions: seq<string>, f: string) {
    Search(extensions, f).Some?
  }

  /** The pattern finds a match exactly when the file name ends with one of
      the extensions, taken literally (or with one of them and a final
      newline). */
  lemma MatchTypesIff(extensions: seq<string>, f: string)
    ensures MatchTypes(extensions, f) <==> exists e | e in Alternatives(extensions) :: EndMatch(f, e)
  {
    var alts := Alternatives(extensions);
    var r := Search(extensions, f);
    if r.Some? {
      MatchesAtEnd(f, r.value.1, r.value.0);
    } else {
      forall e | e in alts ensures !EndMatch(f, e) {
        EndMatchAt(f, e);
        if |f| - |e| >= 0 {
          assert !MatchesAt(f, e, |f| - |e|);
        }
        if |f| - 1 - |e| >= 0 {
          assert !MatchesAt(f, e, |f| - 1 - |e|);
        }
      }
    }
  }

  /** For a name without a final newline: a match is an extension the name
      ends with. */
  lemma MatchTypesPlain(extensions: seq<string>, f: string)
    requires |extensions| > 0 && (|f| == 0 || f[|f| - 1] != '\n')
    ensures MatchTypes(extensions, f) <==> exists e | e in extensions :: EndsWith(f, e)
  {
    MatchTypesIff(extensions, f);
  }

  /** `matchTypes(extensions).search(filename).group()`, or `''`. */
  function MatchedExtension(extensions: seq<string>, f: string): (ext: string)
    ensures Search(extensions, f).None? ==> ext == ""
    ensures Search(extensions, f).Some? ==> ext in Alternatives(extensions) && EndMatch(f, ext)
  {
    match Search(extensions, f) {
      case None => ""
      case Some(m) => MatchesAtEnd(f, m.1, m.0); m.1
    }
  }

  /** Of all the extensions a plain name ends with, the one returned is a
      longest: a longer one would have matched further left. */
  lemma MatchedExtensionLongest(extensions: seq<string>, f: string, e: string)
    requires |f| == 0 || f[|f| - 1] != '\n'
    requires e in Alternatives(extensions) && EndsWith(f, e)
    ensures MatchTypes(extensions, f)
    ensures |e| <= |MatchedExtension(extensions, f)|
  {
    assert MatchesAt(f, e, |f| - |e|);
    var r := Search(extensions, f);
    assert r.Some?;
    MatchesAtEnd(f, r.value.1, r.value.0);
  }

  // ---------------------------------------------------------------------
  // baseName: os.path.split, then basename.split(os.extsep)[0]

  /** `os.path.split(p)[1]`: what follows the last `/`. */
  function LastComponent(p: string): (r: string)
    ensures EndsWith(p, r) && '/' !in r
    ensures |r| < |p| ==> p[|p| - |r| - 1] == '/'
    decreases |p|
  {
    if |p| == 0 || p[|p| - 1] == '/' then ""
    else
      var q := LastComponent(p[..|p| - 1]);
      LastComponentStep(p, q);
      q + [p[|p| - 1]]
  }

  /** The recursive step of `LastComponent`: a component of all but the
      last character, extended by that character. */
  lemma LastComponentStep(p: string, q: string)
    requires |p| > 0 && p[|p| - 1] != '/'
    requires EndsWith(p[..|p| - 1], q) && '/' !in q
    requires |q| < |p| - 1 ==> p[..|p| - 1][|p| - 1 - |q| - 1] == '/'
    ensures var r := q + [p[|p| - 1]];
            EndsWith(p, r) && '/' !in r && (|r| < |p| ==> p[|p| - |r| - 1] == '/')
  {
    var init := p[..|p| - 1];
    var r := q + [p[|p| - 1]];
    assert init[|init| - |q|..] == q;
    assert p[|p| - |r|..] == init[|init| - |q|..] + [p[|p| - 1]];
    if |r| < |p| {
      assert p[|p| - |r| - 1] == init[|init| - |q| - 1];
    }
  }

  /** `baseName(filename, extensions)`: the last path component up to its
      first `.`, and the extension the pattern matched. */
  function BaseName(filename: string, extensions: seq<string>): (r: (string, string))
    ensures StartsWith(LastComponent(filename), r.0) && '.' !in r.0 && '/' !in r.0
    ensures r.0 == LastComponent(filename) || LastComponent(filename)[|r.0|] == '.'
    ensures r.1 == MatchedExtension(extensions, filename)
  {
    var basename := LastComponent(filename);
    NamePart(basename, ".");
    (Split(basename, ".")[0], MatchedExtension(extensions, filename))
  }

  /** `c.split(sep)[0]` for a one-character separator: the prefix of `c`
      before its first `sep`. */
  lemma NamePart(c: string, sep: string)
    requires |sep| == 1
    ensures var name := Split(c, sep)[0];
            StartsWith(c, name) && sep[0] !in name && (name == c || c[|name|] == sep[0])
  {
    var name := Split(c, sep)[0];
    SplitHeadIsPrefix(c, sep);
    SplitHeadStops(c, sep);
    SplitPiecesFree(c, sep);
    assert !Contains(name, [sep[0]]) by {
      assert [sep[0]] == sep;
    }
    NotContainsChar(name, sep[0]);
    if name != c {
      assert OccursAt(c, sep, |name|);
      assert c[|name|..|name| + 1][0] == c[|name|];
    }
  }

  // ---------------------------------------------------------------------
  // os.path.splitext and the .hip filter of dropAccept

  predicate AllDots(s: string) {
    forall i | 0 <= i < |s| :: s[i] == '.'
  }

  /** The index of the last `.` in `s`. */
  function LastDot(s: string): (r: Option<nat>)
    ensures r.Some? ==> r.value < |s| && s[r.value] == '.' && '.' !in s[r.value + 1..]
    ensures r.None? ==> '.' !in s
    decreases |s|
  {
    if |s| == 0 then None
    else if s[|s| - 1] == '.' then Some(|s| - 1)
    else
      var r := LastDot(s[..|s| - 1]);
      if r.Some? then
        assert s[r.value + 1..] == s[..|s| - 1][r.value + 1..] + [s[|s| - 1]];
        r
      else
        assert s == s[..|s| - 1] + [s[|s| - 1]];
        None
  }

  /** `os.path.splitext(p)[1]`: the extension of the last component. */
  function SplitExt(p: string): string {
    ComponentExt(LastComponent(p))
  }

  /** The extension of a path component: from its last `.` on, unless only
      dots precede that `.`. */
  function ComponentExt(c: string): string {
    match LastDot(c) {
      case None => ""
      case Some(d) => if AllDots(c[..d]) then "" else c[d..]
    }
  }

  /** An extension `splitext` finds is a dot, then no dot and no `/`, at the
      end of the path. */
  lemma SplitExtShape(p: string)
    ensures var ext := SplitExt(p);
            ext == "" || (ext[0] == '.' && EndsWith(p, ext) && '.' !in ext[1..] && '/' !in ext)
  {
    var c := LastComponent(p);
    var ext := ComponentExt(c);
    if ext != "" {
      ComponentExtShape(c);
      assert p[|p| - |ext|..] == c[|c| - |ext|..];
    }
  }

  lemma ComponentExtShape(c: string)
    ensures var ext := ComponentExt(c);
            ext == "" || (ext[0] == '.' && EndsWith(c, ext) && '.' !in ext[1..] && forall j | 0 <= j < |ext| :: ext[j] in c)
  {
    if LastDot(c).Some? {
      var d := LastDot(c).value;
      assert c[d..][1..] == c[d + 1..];
      assert forall j | 0 <= j < |c| - d :: c[d..][j] == c[d + j];
    }
  }

  /** The last `.` of a string ending in a `.` and a dot-free tail is the
      one starting that tail. */
  lemma {:induction false} LastDotOfSuffix(c: string, t: string)
    requires |t| > 0 && t[0] == '.' && '.' !in t[1..] && EndsWith(c, t)
    ensures LastDot(c) == Some(|c| - |t|)
    decreases |t|
  {
    var d := |c| - |t|;
    if |t| == 1 {
      assert c[|c| - 1] == t[0];
    } else {
      assert c[|c| - 1] == t[|t| - 1];
      assert t[|t| - 1] in t[1..];
      var c' := c[..|c| - 1];
      var t' := t[..|t| - 1];
      assert c'[|c'| - |t'|..] == t';
      assert t'[1..] == t[1..|t| - 1];
      assert t[1..] == t'[1..] + [t[|t| - 1]];
      LastDotOfSuffix(c', t');
    }
  }

  /** `splitext` gives the extension `t`, stated without the split: the
      component ends in `t` and holds something other than dots before
      it. */
  lemma ComponentExtIs(c: string, t: string)
    requires |t| > 0 && t[0] == '.' && '.' !in t[1..]
    ensures ComponentExt(c) == t <==> EndsWith(c, t) && !AllDots(c[..|c| - |t|])
  {
    if EndsWith(c, t) && !AllDots(c[..|c| - |t|]) {
      LastDotOfSuffix(c, t);
      assert c[|c| - |t|..] == t;
    }
    if ComponentExt(c) == t {
      var d := LastDot(c).value;
      assert c[d..] == t && !AllDots(c[..d]);
      assert |c| - |t| == d;
    }
  }

  /** `os.path.splitext(p)[1] == ".hip"`: the last component ends in `.hip`
      and holds something other than dots before it. */
  lemma SplitExtHip(p: string)
    ensures SplitExt(p) == ".hip" <==>
            EndsWith(LastComponent(p), ".hip") && !AllDots(LastComponent(p)[..|LastComponent(p)| - 4])
  {
    HipLiteral();
    ComponentExtIs(LastComponent(p), ".hip");
  }

  lemma HipLiteral()
    ensures |".hip"| == 4 && ".hip"[0] == '.' && '.' !in ".hip"[1..]
  {
    assert ".hip"[1..] == "hip";
  }

  /** The guard of `dropAccept`: a non-empty list whose first file has the
      extension `.hip`. */
  predicate HipExcluded(filelist: seq<string>) {
    |filelist| > 0 && SplitExt(filelist[0]) == ".hip"
  }

  // ---------------------------------------------------------------------
  // str.title on ASCII text

  predicate IsCased(c: char) {
    'a' <= c <= 'z' || 'A' <= c <= 'Z'
  }

  function Upper(c: char): char {
    if 'a' <= c <= 'z' then (c as int - 32) as char else c
  }

  function Lower(c: char): char {
    if 'A' <= c <= 'Z' then (c as int + 32) as char else c
  }

  /** `s.title()` after a character that was cased or not. */
  function TitleAfter(s: string, prevCased: bool): (r: string)
    ensures |r| == |s|
    decreases |s|
  {
    if |s| == 0 then ""
    else
      var c := if !IsCased(s[0]) then s[0] else if prevCased then Lower(s[0]) else Upper(s[0]);
      [c] + TitleAfter(s[1..], IsCased(s[0]))
  }

  /** `s.title()`. */
  function Title(s: string): (r: string)
    ensures |r| == |s|
  {
    TitleAfter(s, false)
  }

  /** Title case character by character: a letter is upper-cased when it
      starts the string or follows a non-letter and lower-cased otherwise;
      every other character is kept. */
  lemma {:induction false} TitleAfterAt(s: string, prevCased: bool, i: nat)
    requires i < |s|
    ensures TitleAfter(s, prevCased)[i] ==
            if !IsCased(s[i]) then s[i]
            else if (if i == 0 then prevCased else IsCased(s[i - 1])) then Lower(s[i])
            else Upper(s[i])
    decreases i
  {
    if i > 0 {
      TitleAfterAt(s[1..], IsCased(s[0]), i - 1);
    }
  }

  lemma TitleAt(s: string, i: nat)
    requires i < |s|
    ensures Title(s)[i] ==
            if !IsCased(s[i]) then s[i]
            else if i > 0 && IsCased(s[i - 1]) then Lower(s[i])
            else Upper(s[i])
  {
    TitleAfterAt(s, false, i);
  }

  /** Title-casing a title-cased string changes nothing. */
  lemma {:induction false} TitleAfterIdempotent(s: string, prevCased: bool)
    ensures TitleAfter(TitleAfter(s, prevCased), prevCased) == TitleAfter(s, prevCased)
    decreases |s|
  {
    if |s| > 0 {
      var t := TitleAfter(s, prevCased);
      assert t[1..] == TitleAfter(s[1..], IsCased(s[0]));
      assert IsCased(t[0]) == IsCased(s[0]);
      TitleAfterIdempotent(s[1..], IsCased(s[0]));
    }
  }

  lemma TitleIdempotent(s: string)
    ensures Title(Title(s)) == Title(s)
  {
    TitleAfterIdempotent(s, false);
  }

  /** Title case keeps every character that is not a letter, so a name
      without `.` or `/` stays without them. */
  lemma TitleKeepsSeparators(s: string, c: char)
    requires !IsCased(c) && c !in s
    ensures c !in Title(s)
  {
    if c in Title(s) {
      var i :| 0 <= i < |Title(s)| && Title(s)[i] == c;
      TitleAt(s, i);
    }
  }

  // ---------------------------------------------------------------------
  // What the handlers do to the scene

  /** The node colours of the helper module, by name. */
  datatype Color = ImageNodeColor | ClipNodeColor | AlembicNodeColor | GeoNodeColor

  /** `hou.Vector2`, the network editor's cursor position. */
  datatype Vector2 = Vector2(x: real, y: real)

  /** The child type category of the current network: what kind of nodes
      it holds. */
  datatype Category = ObjNodes | SopNodes | VopNodes | ChopNodes | Cop2Nodes | OtherNodes

  /** A current network editor tab as the hook sees it: the type name of
      the network it shows (`ctx.type().name()`), that network's child
      category, and the cursor position. */
  datatype Editor = Editor(contextType: string, category: Category, cursor: Vector2)

  /** The node an action is applied to: the one the handler created, or the
      child it created inside that one. */
  datatype Target = Created | Child

  datatype Action =
    | CreateNode(nodeType: string, nodeName: string)
    | CreateChild(nodeType: string, nodeName: string)
    | SetParm(target: Target, parm: string, value: string)
    | SetColor(target: Target, color: Color)
    | SetPosition(target: Target, position: Vector2)
    | DestroyChildren(target: Target)
    | ImportFbx(file: string)
    | InstallHda(file: string)

  /** The extension lists of the helper module. */
  datatype Extensions = Extensions(image: seq<string>, chan: seq<string>, geo: seq<string>, asset: seq<string>)

  /** `copImages`. */
  function CopImages(exts: Extensions, position: Vector2, filename: string): (r: seq<Action>)
    ensures r == [] <==> !MatchTypes(exts.image, filename)
  {
    if !MatchTypes(exts.image, filename) then [] else CopImage(BaseName(filename, exts.image).0, position, filename)
  }

  /** What `copImages` does to a matched file with base name `name`. */
  function CopImage(name: string, position: Vector2, filename: string): seq<Action> {
    [CreateNode("file", name), SetColor(Created, ImageNodeColor), SetPosition(Created, position),
     SetParm(Created, "filename1", filename)]
  }

  /** `chanFiles`. */
  function ChanFiles(exts: Extensions, position: Vector2, filename: string): (r: seq<Action>)
    ensures r == [] <==> !MatchTypes(exts.chan, filename)
  {
    if !MatchTypes(exts.chan, filename) then [] else ChanFile(BaseName(filename, exts.chan).0, position, filename)
  }

  /** What `chanFiles` does to a matched file with base name `name`. */
  function ChanFile(name: string, position: Vector2, filename: string): seq<Action> {
    [CreateNode("file", name), SetColor(Created, ClipNodeColor), SetPosition(Created, position),
     SetParm(Created, "file", filename)]
  }

  /** `shopImages`: outside `mat`, `vopmaterial` and `arnold_vopnet`
      networks no node is created, and `image.setColor` raises on the
      unbound local. */
  function ShopImages(contextType: string, exts: Extensions, position: Vector2, filename: string): (r: Result<seq<Action>>)
    ensures r == Ok([]) <==> !MatchTypes(exts.image, filename)
  {
    if !MatchTypes(exts.image, filename) then Ok([])
    else ShopImage(contextType, BaseName(filename, exts.image).0, position, filename)
  }

  /** What `shopImages` does to a matched file with base name `name`. */
  function ShopImage(contextType: string, name: string, position: Vector2, filename: string): (r: Result<seq<Action>>)
    ensures r.Ok? ==> r.value != []
  {
    if contextType == "mat" || contextType == "vopmaterial" then
      Ok([CreateNode("texture", name), SetParm(Created, "map", filename),
          SetColor(Created, ImageNodeColor), SetPosition(Created, position)])
    else if contextType == "arnold_vopnet" then
      Ok([CreateNode("image", name), SetParm(Created, "filename", filename),
          SetColor(Created, ImageNodeColor), SetPosition(Created, position)])
    else Err(UnboundLocalError("image"))
  }

  /** `objGeom`. */
  function ObjGeom(exts: Extensions, position: Vector2, filename: string): (r: seq<Action>)
    ensures r == [] <==> !MatchTypes(exts.geo, filename)
  {
    if !MatchTypes(exts.geo, filename) then []
    else
      var (name, ext) := BaseName(filename, exts.geo);
      ObjGeomFile(name, ext, position, filename)
  }

  /** What `objGeom` does to a matched file with base name `name` and
      extension `ext`. */
  function ObjGeomFile(name: string, ext: string, position: Vector2, filename: string): (r: seq<Action>)
    ensures r != []
  {
    if ext == ".fbx" then [ImportFbx(filename)]
    else if ext == ".ass" then
      [CreateNode("arnold_procedural", Title(name)), SetPosition(Created, position),
       SetParm(Created, "ar_filename", filename)]
    else
      GeoNode(name, position) + GeoChild(ext, filename)
  }

  /** The `geo` node `objGeom` creates for other geometry, emptied. */
  function GeoNode(name: string, position: Vector2): seq<Action> {
    [CreateNode("geo", Title(name)), SetPosition(Created, position), DestroyChildren(Created)]
  }

  /** The child `objGeom` creates inside the `geo` node to load the file. */
  function GeoChild(ext: string, filename: string): seq<Action> {
    if ext == ".abc" then
      [CreateChild("alembic", "Import_Alembic"), SetColor(Created, AlembicNodeColor),
       SetParm(Child, "fileName", filename)]
    else
      [CreateChild("file", "Import_Geometry"), SetColor(Created, GeoNodeColor),
       SetParm(Child, "file", filename)]
  }

  /** `sopGeom`. */
  function SopGeom(exts: Extensions, position: Vector2, filename: string): (r: seq<Action>)
    ensures r == [] <==> !MatchTypes(exts.geo, filename)
  {
    if !MatchTypes(exts.geo, filename) then []
    else
      var (name, ext) := BaseName(filename, exts.geo);
      SopGeomFile(name, ext, position, filename)
  }

  /** What `sopGeom` does to a matched file with base name `name` and
      extension `ext`. */
  function SopGeomFile(name: string, ext: string, position: Vector2, filename: string): (r: seq<Action>)
    ensures r != []
  {
    if ext == ".ass" then
      [CreateNode("arnold_asstoc", Title(name)), SetPosition(Created, position),
       SetParm(Created, "ass_file", filename)]
    else if ext == ".abc" then
      [CreateNode("alembic", name), SetColor(Created, AlembicNodeColor), SetParm(Created, "fileName", filename)]
    else
      [CreateNode("file", name), SetColor(Created, GeoNodeColor), SetParm(Created, "file", filename)]
  }

  /** `hdaAsset`. */
  function HdaAsset(exts: Extensions, filename: string): (r: seq<Action>)
    ensures r == [] <==> !MatchTypes(exts.asset, filename)
  {
    if !MatchTypes(exts.asset, filename) then [] else [InstallHda(filename)]
  }

  /** `loadContents`: the handlers for the kind of network, in the order of
      the category checks; an object network runs two. */
  function LoadContents(editor: Editor, exts: Extensions, position: Vector2, filename: string): Result<seq<Action>> {
    match editor.category {
      case ObjNodes => Ok(HdaAsset(exts, filename) + ObjGeom(exts, position, filename))
      case SopNodes => Ok(SopGeom(exts, position, filename))
      case VopNodes => ShopImages(editor.contextType, exts, position, filename)
      case ChopNodes => Ok(ChanFiles(exts, position, filename))
      case Cop2Nodes => Ok(CopImages(exts, position, filename))
      case OtherNodes => Ok([])
    }
  }

  // ---------------------------------------------------------------------
  // Properties of the handlers

  /** The file types a kind of network reacts to. */
  predicate Accepts(editor: Editor, exts: Extensions, filename: string) {
    match editor.category {
      case ObjNodes => MatchTypes(exts.asset, filename) || MatchTypes(exts.geo, filename)
      case SopNodes => MatchTypes(exts.geo, filename)
      case VopNodes | Cop2Nodes => MatchTypes(exts.image, filename)
      case ChopNodes => MatchTypes(exts.chan, filename)
      case OtherNodes => false
    }
  }

  /** A file acts on the scene, or raises, exactly when the network's
      handlers accept its type; a file no list matches changes nothing. */
  lemma LoadContentsActs(editor: Editor, exts: Extensions, position: Vector2, filename: string)
    ensures LoadContents(editor, exts, position, filename) != Ok([]) <==> Accepts(editor, exts, filename)
  {
    if editor.category == ObjNodes {
      var h, o := HdaAsset(exts, filename), ObjGeom(exts, position, filename);
      assert |h + o| == |h| + |o|;
    }
  }

  /** Only a VOP network other than `mat`, `vopmaterial` and
      `arnold_vopnet` makes an image file raise. */
  lemma LoadContentsRaises(editor: Editor, exts: Extensions, position: Vector2, filename: string)
    ensures LoadContents(editor, exts, position, filename).Err? <==>
            editor.category == VopNodes && MatchTypes(exts.image, filename) &&
            editor.contextType != "mat" && editor.contextType != "vopmaterial" && editor.contextType != "arnold_vopnet"
  {
  }

  /** The node types an action list creates in the current network, and the
      ones it creates inside a new node. */
  function CreatedTypes(actions: seq<Action>): seq<string>
    decreases |actions|
  {
    if |actions| == 0 then []
    else (if actions[0].CreateNode? then [actions[0].nodeType] else []) + CreatedTypes(actions[1..])
  }

  function ChildTypes(actions: seq<Action>): seq<string>
    decreases |actions|
  {
    if |actions| == 0 then []
    else (if actions[0].CreateChild? then [actions[0].nodeType] else []) + ChildTypes(actions[1..])
  }

  lemma {:induction false} ActionsConcat(a: seq<Action>, b: seq<Action>)
    ensures CreatedTypes(a + b) == CreatedTypes(a) + CreatedTypes(b)
    ensures ChildTypes(a + b) == ChildTypes(a) + ChildTypes(b)
    decreases |a|
  {
    if |a| == 0 {
      assert a + b == b;
    } else {
      assert (a + b)[0] == a[0] && (a + b)[1..] == a[1..] + b;
      ActionsConcat(a[1..], b);
    }
  }

  lemma ActionsPair(x: Action, y: Action)
    ensures CreatedTypes([x, y]) == CreatedTypes([x]) + CreatedTypes([y])
    ensures ChildTypes([x, y]) == ChildTypes([x]) + ChildTypes([y])
  {
    ActionsConcat([x], [y]);
    assert [x] + [y] == [x, y];
  }

  /** The value every parameter set by an action list is set to. */
  predicate ParmsAre(actions: seq<Action>, value: string) {
    forall k | 0 <= k < |actions| :: actions[k].SetParm? ==> actions[k].value == value
  }

  /** `objGeom` on an FBX file imports it and creates nothing. */
  lemma ObjGeomFbx(exts: Extensions, position: Vector2, filename: string)
    requires MatchTypes(exts.geo, filename) && MatchedExtension(exts.geo, filename) == ".fbx"
    ensures var a := ObjGeom(exts, position, filename);
            a == [ImportFbx(filename)] && CreatedTypes(a) == [] && ChildTypes(a) == []
  {
    ObjGeomMatched(exts, position, filename);
    ObjGeomFileActs(BaseName(filename, exts.geo).0, ".fbx", position, filename);
  }

  /** `objGeom` on an `.ass` file creates one Arnold procedural loading it. */
  lemma ObjGeomAss(exts: Extensions, position: Vector2, filename: string)
    requires MatchTypes(exts.geo, filename) && MatchedExtension(exts.geo, filename) == ".ass"
    ensures var a := ObjGeom(exts, position, filename);
            CreatedTypes(a) == ["arnold_procedural"] && ChildTypes(a) == [] &&
            ParmsAre(a, filename) && ImportFbx(filename) !in a
  {
    ObjGeomMatched(exts, position, filename);
    ObjGeomFileActs(BaseName(filename, exts.geo).0, ".ass", position, filename);
  }

  /** What `objGeom` does to a matched file, by its extension. */
  lemma ObjGeomFileActs(name: string, ext: string, position: Vector2, filename: string)
    ensures var a := ObjGeomFile(name, ext, position, filename);
            (ext == ".fbx" ==> a == [ImportFbx(filename)] && CreatedTypes(a) == [] && ChildTypes(a) == []) &&
            (ext == ".ass" ==>
               CreatedTypes(a) == ["arnold_procedural"] && ChildTypes(a) == [] &&
               ParmsAre(a, filename) && ImportFbx(filename) !in a) &&
            (ext != ".fbx" && ext != ".ass" ==>
               CreatedTypes(a) == ["geo"] && ChildTypes(a) == [if ext == ".abc" then "alembic" else "file"] &&
               ParmsAre(a, filename) && ImportFbx(filename) !in a)
  {
    var a := ObjGeomFile(name, ext, position, filename);
    if ext == ".fbx" {
    } else if ext == ".ass" {
      SingleNode(a, filename);
    } else {
      var x, y := GeoNode(name, position), GeoChild(ext, filename);
      assert a == x + y;
      ChildLoads(x, y);
      ParmsConcat(x, y, filename);
      NoImportConcat(x, y, filename);
    }
  }

  /** A matched file: `objGeom` acts on its base name and matched
      extension. */
  lemma ObjGeomMatched(exts: Extensions, position: Vector2, filename: string)
    requires MatchTypes(exts.geo, filename)
    ensures ObjGeom(exts, position, filename) ==
            ObjGeomFile(BaseName(filename, exts.geo).0, MatchedExtension(exts.geo, filename), position, filename)
  {
  }

  /** A matched file: `sopGeom` acts on its base name and matched
      extension. */
  lemma SopGeomMatched(exts: Extensions, position: Vector2, filename: string)
    requires MatchTypes(exts.geo, filename)
    ensures SopGeom(exts, position, filename) ==
            SopGeomFile(BaseName(filename, exts.geo).0, MatchedExtension(exts.geo, filename), position, filename)
  {
  }

  /** A three-action list creating one node, loading `value` and nothing
      else. */
  lemma SingleNode(a: seq<Action>, value: string)
    requires |a| == 3 && a[0].CreateNode?
    requires forall k | 1 <= k < 3 :: !a[k].CreateNode? && !a[k].CreateChild?
    requires forall k | 0 <= k < 3 :: !a[k].ImportFbx? && (a[k].SetParm? ==> a[k].value == value)
    ensures CreatedTypes(a) == [a[0].nodeType] && ChildTypes(a) == []
    ensures ParmsAre(a, value) && forall k | 0 <= k < |a| :: !a[k].ImportFbx?
  {
    ActionsOfThree(a);
  }

  /** `objGeom` on any other matched file creates one `geo` node with an
      `alembic` child for Alembic files and a `file` child otherwise, the
      child loading the file. */
  lemma ObjGeomOther(exts: Extensions, position: Vector2, filename: string)
    requires MatchTypes(exts.geo, filename)
    requires MatchedExtension(exts.geo, filename) != ".fbx" && MatchedExtension(exts.geo, filename) != ".ass"
    ensures var a := ObjGeom(exts, position, filename);
            CreatedTypes(a) == ["geo"] &&
            ChildTypes(a) == [if MatchedExtension(exts.geo, filename) == ".abc" then "alembic" else "file"] &&
            ParmsAre(a, filename) && ImportFbx(filename) !in a
  {
    ObjGeomMatched(exts, position, filename);
    ObjGeomFileActs(BaseName(filename, exts.geo).0, MatchedExtension(exts.geo, filename), position, filename);
  }

  /** A new node `x` followed by the child `y` created inside it. */
  lemma ChildLoads(x: seq<Action>, y: seq<Action>)
    requires |x| > 0 && x[0].CreateNode? && forall k | 1 <= k < |x| :: !x[k].CreateNode? && !x[k].CreateChild?
    requires |y| > 0 && y[0].CreateChild? && forall k | 1 <= k < |y| :: !y[k].CreateNode? && !y[k].CreateChild?
    ensures CreatedTypes(x + y) == [x[0].nodeType] && ChildTypes(x + y) == [y[0].nodeType]
  {
    ActionsConcat(x, y);
    LoneNode(x);
    assert y == [y[0]] + y[1..];
    ActionsConcat([y[0]], y[1..]);
    NoneCreated(y[1..]);
  }

  /** Neither half imports an FBX file, so neither does the whole. */
  lemma NoImportConcat(a: seq<Action>, b: seq<Action>, filename: string)
    requires ImportFbx(filename) !in a && ImportFbx(filename) !in b
    ensures ImportFbx(filename) !in a + b
  {
  }

  /** The types created by a three-action list, action by action. */
  lemma ActionsOfThree(x: seq<Action>)
    requires |x| == 3
    ensures CreatedTypes(x) == CreatedTypes([x[0]]) + CreatedTypes([x[1]]) + CreatedTypes([x[2]])
    ensures ChildTypes(x) == ChildTypes([x[0]]) + ChildTypes([x[1]]) + ChildTypes([x[2]])
  {
    assert x == [x[0], x[1]] + [x[2]];
    ActionsConcat([x[0], x[1]], [x[2]]);
    ActionsPair(x[0], x[1]);
  }

  lemma ParmsConcat(a: seq<Action>, b: seq<Action>, value: string)
    requires ParmsAre(a, value) && ParmsAre(b, value)
    ensures ParmsAre(a + b, value)
  {
    forall k | 0 <= k < |a + b| && (a + b)[k].SetParm? ensures (a + b)[k].value == value {
      if k >= |a| {
        assert (a + b)[k] == b[k - |a|];
      }
    }
  }

  /** `sopGeom` by the matched extension: `.ass` files get an
      `arnold_asstoc` node, Alembic files an `alembic` node, every other
      matched file a `file` node, each loading the dropped file. */
  lemma SopGeomDispatch(exts: Extensions, position: Vector2, filename: string)
    requires MatchTypes(exts.geo, filename)
    ensures var ext := MatchedExtension(exts.geo, filename);
            var a := SopGeom(exts, position, filename);
            CreatedTypes(a) == [if ext == ".ass" then "arnold_asstoc" else if ext == ".abc" then "alembic" else "file"] &&
            ChildTypes(a) == [] && ParmsAre(a, filename)
  {
    SopGeomMatched(exts, position, filename);
    SopGeomFileActs(BaseName(filename, exts.geo).0, MatchedExtension(exts.geo, filename), position, filename);
  }

  /** What `sopGeom` does to a matched file, by its extension. */
  lemma SopGeomFileActs(name: string, ext: string, position: Vector2, filename: string)
    ensures var a := SopGeomFile(name, ext, position, filename);
            CreatedTypes(a) == [if ext == ".ass" then "arnold_asstoc" else if ext == ".abc" then "alembic" else "file"] &&
            ChildTypes(a) == [] && ParmsAre(a, filename)
  {
    SingleNode(SopGeomFile(name, ext, position, filename), filename);
  }

  /** A list that creates one node, at its head, and no child. */
  lemma LoneNode(a: seq<Action>)
    requires |a| > 0 && a[0].CreateNode?
    requires forall k | 1 <= k < |a| :: !a[k].CreateNode? && !a[k].CreateChild?
    ensures CreatedTypes(a) == [a[0].nodeType] && ChildTypes(a) == []
  {
    assert a == [a[0]] + a[1..];
    ActionsConcat([a[0]], a[1..]);
    NoneCreated(a[1..]);
  }

  lemma {:induction false} NoneCreated(a: seq<Action>)
    requires forall k | 0 <= k < |a| :: !a[k].CreateNode? && !a[k].CreateChild?
    ensures CreatedTypes(a) == [] && ChildTypes(a) == []
    decreases |a|
  {
    if |a| > 0 {
      NoneCreated(a[1..]);
    }
  }

  /** `shopImages` on a matched image file: a `texture` node in `mat` and
      `vopmaterial` networks, an `image` node in `arnold_vopnet` networks,
      each loading the file; in any other network the unbound `image`
      raises. */
  lemma ShopImagesDispatch(contextType: string, exts: Extensions, position: Vector2, filename: string)
    requires MatchTypes(exts.image, filename)
    ensures var r := ShopImages(contextType, exts, position, filename);
            (contextType == "mat" || contextType == "vopmaterial" ==>
               r.Ok? && CreatedTypes(r.value) == ["texture"] && ParmsAre(r.value, filename)) &&
            (contextType == "arnold_vopnet" ==>
               r.Ok? && CreatedTypes(r.value) == ["image"] && ParmsAre(r.value, filename)) &&
            (contextType != "mat" && contextType != "vopmaterial" && contextType != "arnold_vopnet" ==>
               r == Err(UnboundLocalError("image")))
  {
    ShopImageActs(contextType, BaseName(filename, exts.image).0, position, filename);
  }

  lemma ShopImageActs(contextType: string, name: string, position: Vector2, filename: string)
    ensures var r := ShopImage(contextType, name, position, filename);
            (contextType == "mat" || contextType == "vopmaterial" ==>
               r.Ok? && CreatedTypes(r.value) == ["texture"] && ParmsAre(r.value, filename)) &&
            (contextType == "arnold_vopnet" ==>
               r.Ok? && CreatedTypes(r.value) == ["image"] && ParmsAre(r.value, filename)) &&
            (contextType != "mat" && contextType != "vopmaterial" && contextType != "arnold_vopnet" ==>
               r == Err(UnboundLocalError("image")))
  {
    var r := ShopImage(contextType, name, position, filename);
    if r.Ok? {
      LoneNode(r.value);
    }
  }

  /** `copImages` and `chanFiles` on a matched file: one `file` node
      loading it. */
  lemma FileNodes(exts: Extensions, position: Vector2, filename: string)
    ensures var a := CopImages(exts, position, filename);
            MatchTypes(exts.image, filename) ==> CreatedTypes(a) == ["file"] && ParmsAre(a, filename)
    ensures var a := ChanFiles(exts, position, filename);
            MatchTypes(exts.chan, filename) ==> CreatedTypes(a) == ["file"] && ParmsAre(a, filename)
  {
    if MatchTypes(exts.image, filename) {
      CopImageActs(BaseName(filename, exts.image).0, position, filename);
    }
    if MatchTypes(exts.chan, filename) {
      ChanFileActs(BaseName(filename, exts.chan).0, position, filename);
    }
  }

  lemma CopImageActs(name: string, position: Vector2, filename: string)
    ensures var a := CopImage(name, position, filename);
            CreatedTypes(a) == ["file"] && ParmsAre(a, filename)
  {
    LoneNode(CopImage(name, position, filename));
  }

  lemma ChanFileActs(name: string, position: Vector2, filename: string)
    ensures var a := ChanFile(name, position, filename);
            CreatedTypes(a) == ["file"] && ParmsAre(a, filename)
  {
    LoneNode(ChanFile(name, position, filename));
  }

  /** In an object network a file matching both lists is installed as an
      asset first and then loaded as geometry. */
  lemma LoadContentsObj(editor: Editor, exts: Extensions, position: Vector2, filename: string)
    requires editor.category == ObjNodes && MatchTypes(exts.asset, filename)
    ensures LoadContents(editor, exts, position, filename) == Ok([InstallHda(filename)] + ObjGeom(exts, position, filename))
    ensures CreatedTypes(LoadContents(editor, exts, position, filename).value) == CreatedTypes(ObjGeom(exts, position, filename))
  {
    ActionsConcat([InstallHda(filename)], ObjGeom(exts, position, filename));
  }

  /** A name every created node gets: no `/`, no `.`. */
  predicate NamesClean(actions: seq<Action>) {
    forall k | 0 <= k < |actions| :: (actions[k].CreateNode? || actions[k].CreateChild?) ==>
      '.' !in actions[k].nodeName && '/' !in actions[k].nodeName
  }

  /** Every node the hook creates is named after the dropped file's base
      name (title-cased or not) or a fixed child name, so no node name
      carries a directory or an extension. */
  lemma LoadContentsNamesClean(editor: Editor, exts: Extensions, position: Vector2, filename: string)
    requires LoadContents(editor, exts, position, filename).Ok?
    ensures NamesClean(LoadContents(editor, exts, position, filename).value)
  {
    match editor.category {
      case ObjNodes =>
        ObjGeomNamesClean(exts, position, filename);
        NamesCleanConcat(HdaAsset(exts, filename), ObjGeom(exts, position, filename));
      case SopNodes => SopGeomNamesClean(exts, position, filename);
      case VopNodes => ShopImagesNamesClean(editor.contextType, exts, position, filename);
      case ChopNodes => ChanFilesNamesClean(exts, position, filename);
      case Cop2Nodes => CopImagesNamesClean(exts, position, filename);
      case OtherNodes =>
    }
  }

  lemma ObjGeomNamesClean(exts: Extensions, position: Vector2, filename: string)
    ensures NamesClean(ObjGeom(exts, position, filename))
  {
    if MatchTypes(exts.geo, filename) {
      var name := BaseName(filename, exts.geo).0;
      ObjGeomMatched(exts, position, filename);
      NameClean(name);
      ObjGeomFileNamesClean(name, MatchedExtension(exts.geo, filename), position, filename);
    }
  }

  lemma SopGeomNamesClean(exts: Extensions, position: Vector2, filename: string)
    ensures NamesClean(SopGeom(exts, position, filename))
  {
    if MatchTypes(exts.geo, filename) {
      var name := BaseName(filename, exts.geo).0;
      SopGeomMatched(exts, position, filename);
      NameClean(name);
      SopGeomFileNamesClean(name, MatchedExtension(exts.geo, filename), position, filename);
    }
  }

  lemma ShopImagesNamesClean(contextType: string, exts: Extensions, position: Vector2, filename: string)
    ensures var r := ShopImages(contextType, exts, position, filename);
            r.Ok? ==> NamesClean(r.value)
  {
    if MatchTypes(exts.image, filename) {
      ShopImageNamesClean(contextType, BaseName(filename, exts.image).0, position, filename);
    }
  }

  lemma ChanFilesNamesClean(exts: Extensions, position: Vector2, filename: string)
    ensures NamesClean(ChanFiles(exts, position, filename))
  {
    if MatchTypes(exts.chan, filename) {
      ChanFileNamesClean(BaseName(filename, exts.chan).0, position, filename);
    }
  }

  lemma ChanFileNamesClean(name: string, position: Vector2, filename: string)
    requires '.' !in name && '/' !in name
    ensures NamesClean(ChanFile(name, position, filename))
  {
    HeadNameClean(ChanFile(name, position, filename));
  }

  lemma CopImagesNamesClean(exts: Extensions, position: Vector2, filename: string)
    ensures NamesClean(CopImages(exts, position, filename))
  {
    if MatchTypes(exts.image, filename) {
      CopImageNamesClean(BaseName(filename, exts.image).0, position, filename);
    }
  }

  lemma CopImageNamesClean(name: string, position: Vector2, filename: string)
    requires '.' !in name && '/' !in name
    ensures NamesClean(CopImage(name, position, filename))
  {
    HeadNameClean(CopImage(name, position, filename));
  }

  lemma NamesCleanConcat(a: seq<Action>, b: seq<Action>)
    requires forall k | 0 <= k < |a| :: !a[k].CreateNode? && !a[k].CreateChild?
    requires NamesClean(b)
    ensures NamesClean(a + b)
  {
    forall k | 0 <= k < |a + b| && ((a + b)[k].CreateNode? || (a + b)[k].CreateChild?)
      ensures '.' !in (a + b)[k].nodeName && '/' !in (a + b)[k].nodeName
    {
      assert k >= |a| && (a + b)[k] == b[k - |a|];
    }
  }

  /** Title-casing a clean name keeps it clean. */
  lemma NameClean(name: string)
    requires '.' !in name && '/' !in name
    ensures '.' !in Title(name) && '/' !in Title(name)
  {
    TitleKeepsSeparators(name, '.');
    TitleKeepsSeparators(name, '/');
  }

  /** A list whose one created node, at its head, has a clean name. */
  lemma HeadNameClean(a: seq<Action>)
    requires |a| > 0 && a[0].CreateNode? && '.' !in a[0].nodeName && '/' !in a[0].nodeName
    requires forall k | 1 <= k < |a| :: !a[k].CreateNode? && !a[k].CreateChild?
    ensures NamesClean(a)
  {
  }

  /** Clean names, followed by one child with a clean name. */
  lemma ChildNameClean(a: seq<Action>, b: seq<Action>)
    requires NamesClean(a)
    requires |b| > 0 && b[0].CreateChild? && '.' !in b[0].nodeName && '/' !in b[0].nodeName
    requires forall k | 1 <= k < |b| :: !b[k].CreateNode? && !b[k].CreateChild?
    ensures NamesClean(a + b)
  {
    forall k | 0 <= k < |a + b| && ((a + b)[k].CreateNode? || (a + b)[k].CreateChild?)
      ensures '.' !in (a + b)[k].nodeName && '/' !in (a + b)[k].nodeName
    {
      if k < |a| {
        assert (a + b)[k] == a[k];
      } else {
        assert (a + b)[k] == b[k - |a|];
      }
    }
  }

  /** The fixed names of the children `objGeom` creates. */
  lemma ChildNamesFixed()
    ensures '.' !in "Import_Alembic" && '/' !in "Import_Alembic"
    ensures '.' !in "Import_Geometry" && '/' !in "Import_Geometry"
  {
  }

  lemma ObjGeomFileNamesClean(name: string, ext: string, position: Vector2, filename: string)
    requires '.' !in Title(name) && '/' !in Title(name)
    ensures NamesClean(ObjGeomFile(name, ext, position, filename))
  {
    if ext != ".fbx" && ext != ".ass" {
      var c := GeoChild(ext, filename);
      ChildNamesFixed();
      HeadNameClean(GeoNode(name, position));
      ChildNameClean(GeoNode(name, position), c);
    }
  }

  lemma SopGeomFileNamesClean(name: string, ext: string, position: Vector2, filename: string)
    requires '.' !in name && '/' !in name && '.' !in Title(name) && '/' !in Title(name)
    ensures NamesClean(SopGeomFile(name, ext, position, filename))
  {
    HeadNameClean(SopGeomFile(name, ext, position, filename));
  }

  lemma ShopImageNamesClean(contextType: string, name: string, position: Vector2, filename: string)
    requires '.' !in name && '/' !in name
    ensures var r := ShopImage(contextType, name, position, filename);
            r.Ok? ==> NamesClean(r.value)
  {
    var r := ShopImage(contextType, name, position, filename);
    if r.Ok? {
      HeadNameClean(r.value);
    }
  }

  // ---------------------------------------------------------------------
  // dropAccept

  /** `getNetworkEditor()`: the last of the current network editor tabs;
      with none, `[-1]` raises. */
  function GetNetworkEditor(editors: seq<Editor>): (r: Result<Editor>)
    ensures r.Ok? <==> |editors| > 0
    ensures r.Ok? ==> r.value == editors[|editors| - 1]
  {
    if |editors| == 0 then Err(IndexError("list index out of range")) else Ok(editors[|editors| - 1])
  }

  /** The loop of `dropAccept` over the files: the actions done, and the
      exception that ended it, if any. The editor tabs do not change while
      the hook runs. */
  function DropRun(files: seq<string>, editors: seq<Editor>, exts: Extensions): (r: (seq<Action>, Option<PyError>))
    decreases |files|
  {
    if |files| == 0 then ([], None)
    else match GetNetworkEditor(editors) {
      case Err(e) => ([], Some(e))
      case Ok(ed) =>
        match LoadContents(ed, exts, ed.cursor, files[0]) {
          case Err(e) => ([], Some(e))
          case Ok(a) =>
            var rest := DropRun(files[1..], editors, exts);
            (a + rest.0, rest.1)
        }
    }
  }

  /** Without an exception, the scene gets each file's actions in the order
      of the list. */
  lemma {:induction false} DropRunEachFile(files: seq<string>, editors: seq<Editor>, exts: Extensions)
    requires |editors| > 0
    requires forall k | 0 <= k < |files| :: LoadContents(editors[|editors| - 1], exts, editors[|editors| - 1].cursor, files[k]).Ok?
    ensures DropRun(files, editors, exts).1 == None
    ensures DropRun(files, editors, exts).0 == LoadAll(files, editors[|editors| - 1], exts)
    decreases |files|
  {
    if |files| > 0 {
      DropRunEachFile(files[1..], editors, exts);
    }
  }

  /** One file of the loop: with no editor tab, or when its handlers raise,
      the loop stops there; otherwise its actions come before the rest. */
  lemma DropRunStep(files: seq<string>, editors: seq<Editor>, exts: Extensions)
    requires |files| > 0
    ensures |editors| == 0 ==> DropRun(files, editors, exts) == ([], Some(GetNetworkEditor(editors).error))
    ensures |editors| > 0 ==>
            var ed := editors[|editors| - 1];
            var loaded := LoadContents(ed, exts, ed.cursor, files[0]);
            DropRun(files, editors, exts) ==
              if loaded.Err? then ([], Some(loaded.error))
              else (loaded.value + DropRun(files[1..], editors, exts).0, DropRun(files[1..], editors, exts).1)
  {
  }

  /** The actions of loading each of `files` in turn into `editor`. */
  function LoadAll(files: seq<string>, editor: Editor, exts: Extensions): seq<Action>
    decreases |files|
  {
    if |files| == 0 then []
    else
      var first := LoadContents(editor, exts, editor.cursor, files[0]);
      (if first.Ok? then first.value else []) + LoadAll(files[1..], editor, exts)
  }

  /** Only the first file is checked for `.hip`: a project file later in the
      list goes through the handlers like any other file. */
  lemma DropRunLaterHip(first: string, files: seq<string>, editors: seq<Editor>, exts: Extensions)
    requires |editors| > 0 && !HipExcluded([first] + files)
    requires LoadContents(editors[|editors| - 1], exts, editors[|editors| - 1].cursor, first).Ok?
    ensures DropRun([first] + files, editors, exts).0 ==
            LoadContents(editors[|editors| - 1], exts, editors[|editors| - 1].cursor, first).value + DropRun(files, editors, exts).0
  {
    assert ([first] + files)[1..] == files;
  }

  lemma AppendAssoc(a: seq<Action>, b: seq<Action>, c: seq<Action>)
    ensures (a + b) + c == a + (b + c)
  {
  }

  /** The hook's module state: the global `position` and the scene the
      handlers act on. */
  class DragDrop {
    var position: Option<Vector2>
    var scene: seq<Action>

    constructor ()
      ensures position == None && scene == []
    {
      position := None;
      scene := [];
    }

    /** `cursorPosition(network)`. */
    method CursorPosition(network: Editor)
      modifies this
      ensures position == Some(network.cursor) && scene == old(scene)
    {
      position := Some(network.cursor);
    }

    /** `dropAccept(filelist)`: refuses a drop whose first file is a `.hip`
      file, otherwise loads every file into the current network. */
    method DropAccept(filelist: seq<string>, editors: seq<Editor>, exts: Extensions) returns (r: Result<bool>)
      modifies this
      ensures HipExcluded(filelist) ==> r == Ok(false) && scene == old(scene) && position == old(position)
      ensures !HipExcluded(filelist) ==> scene == old(scene) + DropRun(filelist, editors, exts).0
      ensures !HipExcluded(filelist) ==> (r == Ok(true) <==> DropRun(filelist, editors, exts).1.None?)
      ensures !HipExcluded(filelist) && r.Err? ==> Some(r.error) == DropRun(filelist, editors, exts).1
      ensures !HipExcluded(filelist) && r.Ok? ==> r.value
      ensures !HipExcluded(filelist) ==>
              position == if |filelist| > 0 && |editors| > 0 then Some(editors[|editors| - 1].cursor) else old(position)
    {
      if HipExcluded(filelist) {
        return Ok(false);
      }
      var i := 0;
      ghost var rest := filelist;
      ghost var total := DropRun(filelist, editors, exts);
      ghost var ahead := total;
      while i < |filelist|
        invariant 0 <= i <= |filelist| && rest == filelist[i..]
        invariant ahead == DropRun(rest, editors, exts)
        invariant ahead.1 == total.1 && scene + ahead.0 == old(scene) + total.0
        invariant i > 0 ==> |editors| > 0
        invariant position == if i > 0 then Some(editors[|editors| - 1].cursor) else old(position)
      {
        var editor := GetNetworkEditor(editors);
        if editor.Err? {
          DropRunStep(rest, editors, exts);
          return Err(editor.error);
        }
        var network := editor.value;
        CursorPosition(network);
        var loaded := LoadContents(network, exts, position.value, filelist[i]);
        DropRunStep(rest, editors, exts);
        if loaded.Err? {
          return Err(loaded.error);
        }
        ghost var done := scene;
        scene := scene + loaded.value;
        rest := filelist[i + 1..];
        ahead := DropRun(rest, editors, exts);
        AppendAssoc(done, loaded.value, ahead.0);
        i := i + 1;
      }
      assert rest == [];
      return Ok(true);
    }
  }
}
