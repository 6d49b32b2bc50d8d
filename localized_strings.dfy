/** The localized texts the view models use. Each is an opaque constant: the model uses the
    localization key itself as the text, which keeps every constant distinct from the others. */
module LocalizedStrings {

  const ButtonPin: string := "buttons.pin"
  const ButtonUnpin: string := "buttons.unpin"
  const ButtonEdit: string := "buttons.edit"
  const ButtonRestore: string := "buttons.restore"
  const ButtonAddProduct: string := "buttons.addProduct"
  const ButtonRestoreList: string := "buttons.restoreList"
  const ButtonRemoveCheckedItems: string := "buttons.removeCheckedItems"
  const ButtonOk: string := "buttons.ok"

  const MainScreenActiveTitle: string := "mainScreenViewController.active.title"
  const MainScreenActiveSwipeHint: string := "mainScreenViewController.active.swipeHint"
  const MainScreenCompletedTitle: string := "mainScreenViewController.completed.title"
  const MainScreenCompletedSwipeHint: string := "mainScreenViewController.completed.swipeHint"

  const NewListCreationTitle: string := "newListViewController.title"
  const NewListItemPlaceholder: string := "newListViewController.itemPlaceholder"

  const SettingsAlertTitle: string := "settings.alertTitle"
  const SettingsAlertMessage: string := "settings.alertMessage"

  /** The three validation messages a row's `error` can hold. */
  datatype ErrorText = NewListEmptyName | NewListNameAlreadyUsed | NewListWrongName
}
