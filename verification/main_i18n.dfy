/** The main-process translator: the start-up language choice and `t` over
    the main key set, whose eight tables each define every key. */
module MainI18n {
  import opened Wrappers
  import opened Locale

  /** The main translation keys, in declaration order. */
  const MainKeys: seq<string> := [
    "menu.title", "menu.settings", "menu.showLogs", "menu.watchingDirectories",
    "menu.quit", "notification.ready", "notification.setupIncomplete",
    "notification.installationComplete", "notification.installationFailed",
    "notification.installationError", "notification.copied",
    "notification.imageOptimized", "notification.optimizationFailed",
    "dialog.pngquantSetupRequired.title", "dialog.pngquantSetupRequired.message",
    "dialog.pngquantSetupRequired.detail",
    "dialog.pngquantSetupRequired.installAutomatically",
    "dialog.pngquantSetupRequired.showManualSteps",
    "dialog.pngquantSetupRequired.skipForNow", "dialog.manualInstallation.title",
    "dialog.manualInstallation.message", "dialog.manualInstallation.copyToClipboard",
    "dialog.manualInstallation.close", "dialog.selectDirectory",
    "dialog.notificationPermission.title", "dialog.notificationPermission.message",
    "dialog.notificationPermission.detail", "dialog.notificationPermission.openSettings",
    "dialog.notificationPermission.cancel", "dialog.notificationInstruction.title",
    "dialog.notificationInstruction.message", "dialog.notificationInstruction.detail",
    "dialog.notificationInstruction.understood"]

  /** Every table yields a non-empty string for every main key. Each of the
      eight literal tables of the main translator defines all keys, so this
      holds of them; their texts are not part of the model. */
  predicate Total(tables: Lang -> Table) {
    forall l: Lang, i :: 0 <= i < |MainKeys| ==> Has(tables(l), MainKeys[i])
  }

  /** The constructor's start-up: the system locale is resolved and passed to
      `setLanguage`. The chosen language is the intended resolution of the
      locale, whatever the inherited-property lookup returned. */
  function StartLanguage(locale: string): (l: Lang)
    ensures l == MapToSupported(locale)
    ensures FromCode(Normalize(locale)).Some? ==> Code(l) == Normalize(locale)
  {
    SelectMasksDefect(locale);
    Select(MapAsWritten(locale))
  }

  /** With total tables, `t` of a declared key is the current language's own
      string, and never the raw key or the English fallback; with parameters
      it is that string with the placeholders filled in. */
  lemma DeclaredKeyTranslated(tables: Lang -> Table, current: Lang, i: nat, params: Option<seq<Param>>)
    requires Total(tables) && i < |MainKeys|
    ensures params.None? ==> Translate(tables, current, MainKeys[i], params) == tables(current)[MainKeys[i]]
    ensures params.Some? ==> Translate(tables, current, MainKeys[i], params) == Fill(tables(current)[MainKeys[i]], params.value)
    ensures Translate(tables, current, MainKeys[i], None) != ""
  {
    assert Has(tables(current), MainKeys[i]);
  }
}
