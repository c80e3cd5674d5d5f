/** The layer-shell window set up in `main` (main.go:197-243, 297-310):
    which screen edges the window is anchored to, the orientation of the
    outer and inner boxes, the layer and exclusive zone, and where each
    button's picture is taken from. GTK itself is not modelled; these are
    the values handed to it. */
module Window {
  import opened Wrappers
  import opened GoStrings
  import Presets

  datatype Edge = Top | Bottom | Left | Right

  /** `gtk.Orientation`; its zero value is horizontal. */
  datatype Orientation = Horizontal | Vertical

  /** The anchored edges (a fresh window has none) and the orientations of
      the outer box and of the alignment and main boxes. */
  datatype Layout = Layout(anchors: set<Edge>, outer: Orientation, inner: Orientation)

  const AllEdges: set<Edge> := {Top, Bottom, Left, Right}

  /** The edge a `-p` value names; `center` and unknown values name none. */
  function EdgeOf(position: string): (r: Option<Edge>)
    ensures r.Some? ==> position in {"top", "bottom", "left", "right"}
  {
    if position == "top" then Some(Top)
    else if position == "bottom" then Some(Bottom)
    else if position == "left" then Some(Left)
    else if position == "right" then Some(Right)
    else None
  }

  function Opposite(e: Edge): Edge {
    match e
    case Top => Bottom
    case Bottom => Top
    case Left => Right
    case Right => Left
  }

  /** The two edges that meet `e`. */
  function Sides(e: Edge): set<Edge> {
    if e == Top || e == Bottom then {Left, Right} else {Top, Bottom}
  }

  /** The direction in which a bar along `e` runs. */
  function Along(e: Edge): Orientation {
    if e == Top || e == Bottom then Horizontal else Vertical
  }

  function Across(o: Orientation): Orientation {
    if o == Horizontal then Vertical else Horizontal
  }

  /** The anchor and orientation blocks for `-p position` and `-f full`. */
  function WindowLayout(position: string, full: bool): (r: Layout)
    ensures EdgeOf(position).Some? ==>
      var e := EdgeOf(position).value;
      && e in r.anchors && Opposite(e) !in r.anchors
      && (full <==> Sides(e) <= r.anchors)
      && (!full ==> r.anchors == {e})
      && r.inner == Along(e) && r.outer == Across(r.inner)
    ensures EdgeOf(position).None? ==> r.outer == Horizontal && r.inner == Horizontal
    ensures position == "center" ==> (r.anchors == AllEdges <==> full) && (!full ==> r.anchors == {})
    ensures EdgeOf(position).None? && position != "center" ==> r.anchors == {}
  {
    if position == "bottom" || position == "top" then
      var main := if position == "bottom" then Bottom else Top;
      Layout({main} + (if full then {Left, Right} else {}), Vertical, Horizontal)
    else if position == "left" || position == "right" then
      var main := if position == "left" then Left else Right;
      Layout({main} + (if full then {Top, Bottom} else {}), Horizontal, Vertical)
    else if position == "center" && full then
      Layout({Right, Left, Bottom, Top}, Horizontal, Horizontal)
    else
      Layout({}, Horizontal, Horizontal)
  }

  /** A full-width bar is anchored to three edges, never to four: it keeps
      off the edge opposite its own. */
  lemma FullBarThreeEdges(position: string)
    requires EdgeOf(position).Some?
    ensures |WindowLayout(position, true).anchors| == 3
  {
    var e := EdgeOf(position).value;
    var r := WindowLayout(position, true);
    assert r.anchors == AllEdges - {Opposite(e)};
  }

  /** The boxes always run crosswise to each other on an edge, and the
      buttons line up along the edge they sit on. */
  lemma EdgeBoxesCross(position: string, full: bool)
    requires EdgeOf(position).Some?
    ensures WindowLayout(position, full).outer != WindowLayout(position, full).inner
    ensures WindowLayout(position, full).inner == Along(EdgeOf(position).value)
  {
  }

  /** `-x`: the layer the window is placed on and its exclusive zone. */
  datatype ShellLayer = Overlay | TopLayer

  datatype Stacking = Stacking(layer: ShellLayer, exclusiveZone: int)

  /** Without `-x` the popup floats above everything and ignores other
      surfaces' zones (-1); with it it sits on the top layer with zone 0. */
  function StackingFor(exclusive: bool): (r: Stacking)
    ensures r.layer == Overlay <==> !exclusive
    ensures r.exclusiveZone == (if exclusive then 0 else -1)
    ensures r.exclusiveZone < 0 <==> r.layer == Overlay
  {
    if !exclusive then Stacking(Overlay, -1) else Stacking(TopLayer, 0)
  }

  /** Where a picture is loaded from: the program's embedded icons, an
      image file, or the current icon theme. */
  datatype IconSource = Embedded(name: string) | IconFile(path: string) | Themed(name: string)

  const EmbedPrefix: string := "embed:"

  /** `createPixbuf`: an absolute path is read as a file, anything else is
      looked up in the icon theme. */
  function PixbufSource(icon: string): (r: IconSource)
    ensures r.IconFile? <==> HasPrefix(icon, "/")
    ensures r.IconFile? ==> r.path == icon
    ensures r.Themed? ==> r.name == icon
    ensures !r.Embedded?
  {
    if HasPrefix(icon, "/") then IconFile(icon) else Themed(icon)
  }

  /** The source a button's icon flag asks for: `embed:` names an embedded
      icon, an empty flag asks the theme for `image-missing`. */
  function IconRequest(icon: string): (r: IconSource)
    ensures r.Embedded? <==> HasPrefix(icon, EmbedPrefix)
    ensures r.Embedded? ==> EmbedPrefix + r.name == icon
    ensures icon == "" ==> r == Themed("image-missing")
    ensures icon != "" && !HasPrefix(icon, EmbedPrefix) ==> r == PixbufSource(icon)
  {
    if icon != "" then
      if HasPrefix(icon, EmbedPrefix) then Embedded(TrimPrefix(icon, EmbedPrefix))
      else PixbufSource(icon)
    else
      assert "image-missing"[0] != '/';
      PixbufSource("image-missing")
  }

  /** The icon flag value that asks for `src`. */
  function IconName(src: IconSource): string {
    match src
    case Embedded(n) => EmbedPrefix + n
    case IconFile(p) => p
    case Themed(n) => n
  }

  /** Sources a flag value can ask for: a file by absolute path, a theme
      icon by a name that is neither a path nor `embed:`-prefixed. */
  predicate Requestable(src: IconSource) {
    match src
    case Embedded(_) => true
    case IconFile(p) => HasPrefix(p, "/")
    case Themed(n) => n != "" && !HasPrefix(n, "/") && !HasPrefix(n, EmbedPrefix)
  }

  /** Every requestable source is asked for by its own name ... */
  lemma IconRequestName(src: IconSource)
    requires Requestable(src)
    ensures IconRequest(IconName(src)) == src
  {
    match src
    case Embedded(n) =>
      assert (EmbedPrefix + n)[..|EmbedPrefix|] == EmbedPrefix;
    case IconFile(p) =>
      assert p[0] == '/';
    case Themed(n) =>
  }

  /** ... and every non-empty flag value is the name of what it asks for. */
  lemma IconNameRequest(icon: string)
    requires icon != ""
    ensures IconName(IconRequest(icon)) == icon
    ensures Requestable(IconRequest(icon))
  {
    if HasPrefix(icon, EmbedPrefix) {
      assert (EmbedPrefix + IconRequest(icon).name)[..|EmbedPrefix|] == EmbedPrefix;
    } else if HasPrefix(icon, "/") {
    } else {
    }
  }

  /** The picture a button shows: the requested source when it loads,
      otherwise the theme's `unknown` icon. `loads` are the sources whose
      loading succeeds. */
  function ButtonIcon(icon: string, loads: set<IconSource>): (r: IconSource)
    ensures IconRequest(icon) in loads ==> r == IconRequest(icon)
    ensures IconRequest(icon) !in loads ==> r == Themed("unknown")
  {
    var request := IconRequest(icon);
    if request in loads then request else Themed("unknown")
  }

  /** With a theme preset every button shows one of the embedded icons for
      that theme, whatever icon flags were given. */
  lemma PresetIconsEmbedded(f: Presets.Flags, a: Presets.Action)
    requires Presets.IsThemePreset(f.theme)
    ensures IconRequest(Presets.ButtonFor(a, Presets.Configure(f)).icon)
         == Embedded(Presets.IconStem(a) + "-" + f.theme)
  {
    var rest := Presets.IconStem(a) + "-" + f.theme;
    var icon := Presets.ButtonFor(a, Presets.Configure(f)).icon;
    assert icon == EmbedPrefix + rest;
    assert icon[..|EmbedPrefix|] == EmbedPrefix;
  }
}
