/** `SettingsViewModel`: the language table and the theme selector. The coordinator's
    `currentLanguage` and `currentTheme` are held here as plain fields; how the coordinator
    persists them is not part of this model. */
module Settings {
  import opened LocalizedStrings

  /** `struct Language` */
  datatype Language = Language(name: string, code: string)

  /** `enum RoundedCorners` (`.none` is `NoCorners`). */
  datatype RoundedCorners = Top | Bottom | All | NoCorners

  /** `struct LanguageCellParams` */
  datatype LanguageCellParams = LanguageCellParams(name: string, corners: RoundedCorners, separator: bool, isSelected: bool)

  /** `SettingsBinding.showAlert(title, message, button)` */
  datatype SettingsBinding = ShowAlert(title: string, message: string, button: string)

  /** Calls into the coordinator that do more than store a value. */
  datatype CoordinatorCall = ApplyCurrentTheme

  class SettingsViewModel {
    /** `coordinator.getLanguages()`, read once at initialisation. */
    const languages: seq<Language>
    /** `coordinator.currentLanguage` */
    var currentLanguage: int
    /** `coordinator.currentTheme` */
    var currentTheme: int
    /** Every value assigned to `settingsBinding`, oldest first. */
    var bindings: seq<SettingsBinding>
    var coordinatorCalls: seq<CoordinatorCall>

    constructor (languages: seq<Language>, currentLanguage: int, currentTheme: int)
      ensures this.languages == languages
      ensures this.currentLanguage == currentLanguage && this.currentTheme == currentTheme
      ensures bindings == [] && coordinatorCalls == []
    {
      this.languages := languages;
      this.currentLanguage := currentLanguage;
      this.currentTheme := currentTheme;
      bindings := [];
      coordinatorCalls := [];
    }

    /** `getTableRowCount()`: one row per language. */
    function GetTableRowCount(): int
      reads this
    {
      |languages|
    }

    /** `getCellParams(for:)`: the rows form one rounded group. A single row is rounded all
        round; otherwise the first row is rounded on top, the last at the bottom, and every
        row but the last is followed by a separator. */
    function GetCellParams(row: int): (p: LanguageCellParams)
      requires 0 <= row < |languages|
      reads this
      ensures p.name == languages[row].name
      ensures p.isSelected <==> currentLanguage == row
      ensures |languages| == 1 ==> p.corners == All && !p.separator
      ensures |languages| > 1 && row == 0 ==> p.corners == Top && p.separator
      ensures |languages| > 1 && row == |languages| - 1 ==> p.corners == Bottom && !p.separator
      ensures 0 < row < |languages| - 1 ==> p.corners == NoCorners && p.separator
      ensures p.separator <==> row < |languages| - 1
    {
      var (corners, separator) :=
        if |languages| == 1 then (All, false)
        else if row == 0 then (Top, true)
        else if row == |languages| - 1 then (Bottom, false)
        else (NoCorners, true);
      LanguageCellParams(languages[row].name, corners, separator, currentLanguage == row)
    }

    /** `languageSelected(_:)`: stores the choice and asks for the restart alert once. */
    method LanguageSelected(row: int)
      modifies this
      ensures currentLanguage == row && currentTheme == old(currentTheme)
      ensures bindings == old(bindings) + [ShowAlert(SettingsAlertTitle, SettingsAlertMessage, ButtonOk)]
      ensures coordinatorCalls == old(coordinatorCalls)
    {
      currentLanguage := row;
      bindings := bindings + [ShowAlert(SettingsAlertTitle, SettingsAlertMessage, ButtonOk)];
    }

    /** `setTheme(themeIndex:)`: stores the index first, then applies the stored theme. */
    method SetTheme(themeIndex: int)
      modifies this
      ensures currentTheme == themeIndex && currentLanguage == old(currentLanguage)
      ensures coordinatorCalls == old(coordinatorCalls) + [ApplyCurrentTheme]
      ensures bindings == old(bindings)
    {
      currentTheme := themeIndex;
      coordinatorCalls := coordinatorCalls + [ApplyCurrentTheme];
    }

    /** `getTheme()` */
    function GetTheme(): int
      reads this
    {
      currentTheme
    }
  }
}
