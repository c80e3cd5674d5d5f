/** Configuration derived from the flag values in `main` (main.go:91-121,
    149-167): the theme and seat presets overwrite icon names and power
    commands, and the `-order` words choose which buttons appear. */
module Presets {
  import opened Wrappers
  import opened GoStrings

  datatype Action = Logout | Reboot | Shutdown | Sleep | HybridSleep | Hibernate | Lock

  /** One string per action: the seven icon flags (`-lgi` … `-lci`), the
      seven label flags or the seven command flags. */
  datatype PerAction = PerAction(
    logout: string, reboot: string, shutdown: string, sleep: string,
    hybridSleep: string, hibernate: string, lock: string)
  {
    function Get(a: Action): string {
      match a
      case Logout => logout
      case Reboot => reboot
      case Shutdown => shutdown
      case Sleep => sleep
      case HybridSleep => hybridSleep
      case Hibernate => hibernate
      case Lock => lock
    }
  }

  /** The flag values that matter here. */
  datatype Flags = Flags(theme: string, seat: string, order: string,
                         icons: PerAction, labels: PerAction, commands: PerAction)

  /** The word that names an action in `-order`. */
  function ActionName(a: Action): string {
    match a
    case Logout => "logout"
    case Reboot => "reboot"
    case Shutdown => "shutdown"
    case Sleep => "sleep"
    case HybridSleep => "hybrid-sleep"
    case Hibernate => "hibernate"
    case Lock => "lock"
  }

  /** The `switch` on an `-order` word; `None` for a word it skips. */
  function ParseAction(token: string): (r: Option<Action>)
    ensures r.Some? ==> ActionName(r.value) == token
  {
    if token == "logout" then Some(Logout)
    else if token == "reboot" then Some(Reboot)
    else if token == "shutdown" then Some(Shutdown)
    else if token == "sleep" then Some(Sleep)
    else if token == "hybrid-sleep" then Some(HybridSleep)
    else if token == "hibernate" then Some(Hibernate)
    else if token == "lock" then Some(Lock)
    else None
  }

  /** Every action has exactly one word. */
  lemma ActionNameRoundTrip(a: Action)
    ensures ParseAction(ActionName(a)) == Some(a)
  {
  }

  /** The icon name each theme preset uses, before its `-dark`/`-light`
      suffix. Hybrid sleep and hibernate share one picture. */
  function IconStem(a: Action): string {
    match a
    case Logout => "system-log-out-symbolic"
    case Reboot => "system-reboot-symbolic"
    case Shutdown => "system-shutdown-symbolic"
    case Sleep => "system-suspend-symbolic"
    case HybridSleep => "system-hibernate-symbolic"
    case Hibernate => "system-hibernate-symbolic"
    case Lock => "system-lock-screen-symbolic"
  }

  predicate IsThemePreset(theme: string) {
    theme == "dark" || theme == "light"
  }

  /** The icon name a theme preset writes: an embedded icon, the stem
      suffixed with the theme. */
  function EmbedName(stem: string, theme: string): string {
    "embed:" + stem + "-" + theme
  }

  /** The theme block: `dark` and `light` overwrite all seven icon flags
      with embedded icons for that theme; any other theme keeps the user's
      icons. */
  function ApplyTheme(theme: string, icons: PerAction): (r: PerAction)
    ensures !IsThemePreset(theme) ==> r == icons
    ensures IsThemePreset(theme) ==> forall a :: r.Get(a) == EmbedName(IconStem(a), theme)
  {
    if theme == "dark" || theme == "light" then
      PerAction(
        EmbedName("system-log-out-symbolic", theme),
        EmbedName("system-reboot-symbolic", theme),
        EmbedName("system-shutdown-symbolic", theme),
        EmbedName("system-suspend-symbolic", theme),
        EmbedName("system-hibernate-symbolic", theme),
        EmbedName("system-hibernate-symbolic", theme),
        EmbedName("system-lock-screen-symbolic", theme))
    else icons
  }

  /** Under a preset, hybrid sleep and hibernate show the same icon, and
      sleep has an icon of its own. */
  lemma PresetIconSharing(theme: string, icons: PerAction)
    requires IsThemePreset(theme)
    ensures ApplyTheme(theme, icons).hybridSleep == ApplyTheme(theme, icons).hibernate
    ensures ApplyTheme(theme, icons).sleep != ApplyTheme(theme, icons).hibernate
  {
    var r := ApplyTheme(theme, icons);
    assert r.sleep[15] != r.hibernate[15];
  }

  /** The power actions, whose commands the seat preset decides. */
  predicate IsPower(a: Action) {
    a != Logout && a != Lock
  }

  predicate IsSeatPreset(seat: string) {
    seat == "systemd" || seat == "elogind"
  }

  /** The program each seat preset runs. */
  function SeatTool(seat: string): string {
    if seat == "systemd" then "systemctl" else "loginctl"
  }

  /** What the preset passes to that program for a power action. */
  function PowerVerb(a: Action): string
    requires IsPower(a)
  {
    match a
    case Reboot => "reboot"
    case Shutdown => "-i poweroff"
    case Sleep => "suspend"
    case HybridSleep => "hybrid-sleep"
    case Hibernate => "hibernate"
  }

  /** A power command: the seat's program followed by its arguments. */
  function SeatCommand(tool: string, verb: string): string {
    tool + " " + verb
  }

  /** The seat block: `systemd` and `elogind` overwrite exactly the five
      power commands; the logout and lock commands are never touched. */
  function ApplySeat(seat: string, commands: PerAction): (r: PerAction)
    ensures r.logout == commands.logout && r.lock == commands.lock
    ensures !IsSeatPreset(seat) ==> r == commands
    ensures IsSeatPreset(seat) ==> forall a :: IsPower(a) ==> r.Get(a) == SeatCommand(SeatTool(seat), PowerVerb(a))
  {
    if seat == "systemd" then
      commands.(reboot := SeatCommand("systemctl", "reboot"),
                shutdown := SeatCommand("systemctl", "-i poweroff"),
                sleep := SeatCommand("systemctl", "suspend"),
                hybridSleep := SeatCommand("systemctl", "hybrid-sleep"),
                hibernate := SeatCommand("systemctl", "hibernate"))
    else if seat == "elogind" then
      commands.(reboot := SeatCommand("loginctl", "reboot"),
                shutdown := SeatCommand("loginctl", "-i poweroff"),
                sleep := SeatCommand("loginctl", "suspend"),
                hybridSleep := SeatCommand("loginctl", "hybrid-sleep"),
                hibernate := SeatCommand("loginctl", "hibernate"))
    else commands
  }

  /** The two seat presets run the same verbs, only through a different
      program. */
  lemma SeatPresetsAgree(commands: PerAction, a: Action)
    requires IsPower(a)
    ensures ApplySeat("elogind", commands).Get(a)
         == "loginctl" + ApplySeat("systemd", commands).Get(a)[|"systemctl"|..]
  {
    var s := ApplySeat("systemd", commands).Get(a);
    assert s == "systemctl" + (" " + PowerVerb(a));
    assert s[|"systemctl"|..] == " " + PowerVerb(a);
  }

  /** The flags after both preset blocks (labels and order untouched). */
  function Configure(f: Flags): (r: Flags)
    ensures r.labels == f.labels && r.order == f.order && r.theme == f.theme && r.seat == f.seat
    ensures r.icons == ApplyTheme(f.theme, f.icons) && r.commands == ApplySeat(f.seat, f.commands)
  {
    f.(icons := ApplyTheme(f.theme, f.icons), commands := ApplySeat(f.seat, f.commands))
  }

  /** A button's icon, label and the command it launches. */
  datatype Button = Button(icon: string, text: string, command: string)

  /** The `Button` literal of each `switch` case: the action's own icon,
      label and command flag. */
  function ButtonFor(a: Action, f: Flags): (r: Button)
    ensures r.icon == f.icons.Get(a) && r.text == f.labels.Get(a) && r.command == f.commands.Get(a)
  {
    Button(f.icons.Get(a), f.labels.Get(a), f.commands.Get(a))
  }

  /** The recognised words of `tokens`, as actions, in order. */
  function Known(tokens: seq<string>): (r: seq<Action>)
    ensures |r| <= |tokens|
  {
    if tokens == [] then []
    else
      var last := ParseAction(tokens[|tokens| - 1]);
      Known(tokens[..|tokens| - 1]) + (if last.Some? then [last.value] else [])
  }

  /** The `-order` loop: one button per recognised word of
      `strings.Fields(order)`, in the order of the words. */
  method BuildButtons(f: Flags) returns (buttons: seq<Button>)
    ensures var acts := Known(Fields(f.order));
      |buttons| == |acts| && forall i :: 0 <= i < |buttons| ==> buttons[i] == ButtonFor(acts[i], f)
  {
    var ord := Fields(f.order);
    buttons := [];
    for k := 0 to |ord|
      invariant |buttons| == |Known(ord[..k])|
      invariant forall i :: 0 <= i < |buttons| ==> buttons[i] == ButtonFor(Known(ord[..k])[i], f)
    {
      assert ord[..k + 1][..k] == ord[..k];
      var a := ord[k];
      if a == "logout" {
        buttons := buttons + [Button(f.icons.logout, f.labels.logout, f.commands.logout)];
      } else if a == "reboot" {
        buttons := buttons + [Button(f.icons.reboot, f.labels.reboot, f.commands.reboot)];
      } else if a == "shutdown" {
        buttons := buttons + [Button(f.icons.shutdown, f.labels.shutdown, f.commands.shutdown)];
      } else if a == "sleep" {
        buttons := buttons + [Button(f.icons.sleep, f.labels.sleep, f.commands.sleep)];
      } else if a == "hybrid-sleep" {
        buttons := buttons + [Button(f.icons.hybridSleep, f.labels.hybridSleep, f.commands.hybridSleep)];
      } else if a == "hibernate" {
        buttons := buttons + [Button(f.icons.hibernate, f.labels.hibernate, f.commands.hibernate)];
      } else if a == "lock" {
        buttons := buttons + [Button(f.icons.lock, f.labels.lock, f.commands.lock)];
      }
    }
    assert ord[..|ord|] == ord;
  }

  /** Words are handled one by one: the actions of a concatenation are
      the actions of each part, so repeating a word repeats its button. */
  lemma {:induction false} KnownAppend(a: seq<string>, b: seq<string>)
    ensures Known(a + b) == Known(a) + Known(b)
    decreases |b|
  {
    if b != [] {
      var init := b[..|b| - 1];
      KnownAppend(a, init);
      assert (a + b)[..|a + b| - 1] == a + init;
      assert b[..|b| - 1] == init;
    } else {
      assert a + b == a;
    }
  }

  /** A word the switch does not know adds no button; a known word adds
      exactly its own. */
  lemma KnownSingle(token: string)
    ensures Known([token]) == if ParseAction(token).Some? then [ParseAction(token).value] else []
  {
    assert [token][..0] == [];
  }

  /** When every word is known, the i-th button belongs to the i-th word. */
  lemma {:induction false} KnownAll(tokens: seq<string>)
    requires forall i :: 0 <= i < |tokens| ==> ParseAction(tokens[i]).Some?
    ensures |Known(tokens)| == |tokens|
    ensures forall i :: 0 <= i < |tokens| ==> Some(Known(tokens)[i]) == ParseAction(tokens[i])
  {
    if tokens != [] {
      var init := tokens[..|tokens| - 1];
      KnownAll(init);
      assert forall i :: 0 <= i < |init| ==> Known(tokens)[i] == Known(init)[i];
    }
  }

  /** The words of the default `-order`, one per action. */
  const DefaultWords: seq<string> :=
    ["logout", "reboot", "shutdown", "sleep", "hybrid-sleep", "hibernate", "lock"]

  /** The default of `-order`: those words separated by single spaces. */
  function DefaultOrder(): (r: string)
    ensures Fields(r) == DefaultWords
  {
    DefaultWordsPlain();
    FieldsJoin(DefaultWords);
    Join(DefaultWords, ' ')
  }

  lemma DefaultWordsPlain()
    ensures forall i :: 0 <= i < |DefaultWords| ==> DefaultWords[i] != [] && forall k :: 0 <= k < |DefaultWords[i]| ==> !IsSpace(DefaultWords[i][k])
  {
  }

  lemma DefaultWordsKnown()
    ensures forall i :: 0 <= i < |DefaultWords| ==> ParseAction(DefaultWords[i]) == Some([Logout, Reboot, Shutdown, Sleep, HybridSleep, Hibernate, Lock][i])
  {
  }

  /** The default `-order` lists every action once, in declaration order. */
  lemma DefaultOrderActions()
    ensures Known(Fields(DefaultOrder())) == [Logout, Reboot, Shutdown, Sleep, HybridSleep, Hibernate, Lock]
  {
    DefaultWordsKnown();
    KnownAll(DefaultWords);
    var acts := Known(DefaultWords);
    assert forall i :: 0 <= i < 7 ==> acts[i] == [Logout, Reboot, Shutdown, Sleep, HybridSleep, Hibernate, Lock][i];
  }
}
