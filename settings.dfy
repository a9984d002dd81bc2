/** ui/settings.py: the stored settings with their default, and the
    placement of a dialog over its parent window within the screen. */
module Settings {
  import opened Wrappers

  /** The settings record: `watch_folder` and whatever else was stored. */
  type SettingsRecord = map<string, string>

  /** What reading the settings file found: no file, a file that cannot be
      read or parsed, or the parsed record. */
  datatype StoredSettings = Missing | Unreadable | Stored(record: SettingsRecord)

  const WatchFolderKey := "watch_folder"

  /** `load_settings()`: the stored record, or `{"watch_folder": ""}` when
      the file is missing or unreadable. */
  function LoadSettings(stored: StoredSettings): (r: SettingsRecord)
    ensures stored.Stored? ==> r == stored.record
    ensures !stored.Stored? ==> r == map[WatchFolderKey := ""]
  {
    match stored
    case Stored(record) => record
    case _ => map[WatchFolderKey := ""]
  }

  /** `settings.get("watch_folder", "")`. */
  function WatchFolder(settings: SettingsRecord): string {
    if WatchFolderKey in settings then settings[WatchFolderKey] else ""
  }

  /** Without a readable settings file no folder is configured. */
  lemma NoFolderByDefault(stored: StoredSettings)
    requires !stored.Stored?
    ensures WatchFolder(LoadSettings(stored)) == ""
  {
  }

  datatype Geometry = Geometry(width: int, height: int, x: int, y: int)

  function Max(a: int, b: int): int { if a >= b then a else b }
  function Min(a: int, b: int): int { if a <= b then a else b }

  /** Python's `a // b` for a positive divisor: the largest q with q*b <= a. */
  function FloorDiv(a: int, b: int): (q: int)
    requires b > 0
    ensures q * b <= a < q * b + b
  {
    a / b
  }

  /** `int(n * p / 100)` for a screen size `n >= 0`; the program writes
      `int(sw * 0.92)` and `int(sh * 0.90)`. */
  function Fraction(n: nat, percent: nat): (r: nat)
    ensures r * 100 <= n * percent < r * 100 + 100
  {
    n * percent / 100
  }

  const MinDialogWidth := 360
  const MinDialogHeight := 220

  /** `center_on_parent(win, parent, w, h)` on a screen of `screenW` by
      `screenH`, over a parent at (`parentX`, `parentY`) of size `parentW`
      by `parentH`: the requested size is limited to 92% / 90% of the
      screen but never below 360 by 220; the dialog is centred over the
      parent and then pushed back inside the screen. */
  function CenterOnParent(screenW: nat, screenH: nat, parentX: int, parentY: int,
                          parentW: int, parentH: int, w: int, h: int): (g: Geometry)
    ensures g.width == Max(MinDialogWidth, Min(w, Fraction(screenW, 92)))
    ensures g.height == Max(MinDialogHeight, Min(h, Fraction(screenH, 90)))
    ensures g.width >= MinDialogWidth && g.height >= MinDialogHeight
    ensures g.width <= Max(MinDialogWidth, w) && g.height <= Max(MinDialogHeight, h)
    ensures g.x >= 0 && g.y >= 0
    ensures screenW >= g.width ==> g.x <= screenW - g.width
    ensures screenH >= g.height ==> g.y <= screenH - g.height
    ensures var cx := parentX + FloorDiv(parentW - g.width, 2);
            0 <= cx <= screenW - g.width ==> g.x == cx
    ensures var cy := parentY + FloorDiv(parentH - g.height, 2);
            0 <= cy <= screenH - g.height ==> g.y == cy
  {
    var finalW := Max(MinDialogWidth, Min(w, Fraction(screenW, 92)));
    var finalH := Max(MinDialogHeight, Min(h, Fraction(screenH, 90)));
    var x := parentX + FloorDiv(parentW - finalW, 2);
    var y := parentY + FloorDiv(parentH - finalH, 2);
    Geometry(finalW, finalH, Max(0, Min(x, screenW - finalW)), Max(0, Min(y, screenH - finalH)))
  }

  /** On a screen at least 392 pixels wide and 245 high the dialog fits the
      screen entirely, whatever size was asked for. */
  lemma DialogFitsScreen(screenW: nat, screenH: nat, parentX: int, parentY: int,
                         parentW: int, parentH: int, w: int, h: int)
    requires screenW >= 392 && screenH >= 245
    ensures var g := CenterOnParent(screenW, screenH, parentX, parentY, parentW, parentH, w, h);
            g.x + g.width <= screenW && g.y + g.height <= screenH
  {
    var g := CenterOnParent(screenW, screenH, parentX, parentY, parentW, parentH, w, h);
    assert Fraction(screenW, 92) >= MinDialogWidth;
    assert Fraction(screenH, 90) >= MinDialogHeight;
    assert g.width <= Fraction(screenW, 92) <= screenW;
    assert g.height <= Fraction(screenH, 90) <= screenH;
  }
}
