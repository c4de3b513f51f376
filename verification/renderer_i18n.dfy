/** The renderer's translator: the same resolution and lookup rules as the
    main process, plus change listeners, the list of languages and their
    native names, over locale tables that do not all define every key. */
module RendererI18n {
  import opened Wrappers
  import opened Locale

  // ---------------------------------------------------------------------------
  // Keys and catalogue

  /** The renderer translation keys, in declaration order. */
  const RendererKeys: seq<string> := [
    "menu.settings", "menu.showLogs", "menu.watchingDirectories", "menu.quit",
    "settings.title", "settings.dependencies", "settings.generalSettings",
    "settings.watchDirectories", "settings.notifications", "settings.testNotification",
    "settings.autoStart", "settings.addDirectory", "settings.removeDirectory",
    "settings.enabled", "settings.pattern", "settings.path",
    "dependency.pngquantInstalled", "dependency.pngquantNotInstalled",
    "dependency.installing", "dependency.installButton", "logs.title", "logs.statistics",
    "logs.totalFiles", "logs.successCount", "logs.errorCount", "logs.refresh",
    "logs.openLogFile", "logs.processingTime", "logs.fileName", "logs.originalSize",
    "logs.optimizedSize", "logs.compressionRatio", "logs.status", "logs.success",
    "logs.failed", "installation.title", "installation.installing",
    "installation.completed", "installation.failed", "installation.progress",
    "notification.imageOptimized", "notification.optimizationFailed",
    "notification.directoryAdded", "notification.directoryRemoved",
    "notification.permissionRequired", "notification.testFailed",
    "emptyState.noDirectories", "emptyState.clickToAdd", "common.browse",
    "common.cancel", "common.ok", "common.close", "common.save", "common.loading",
    "common.error", "common.success"]

  const PermissionRequired := "notification.permissionRequired"
  const TestFailed := "notification.testFailed"
  const NoDirectories := "emptyState.noDirectories"
  const ClickToAdd := "emptyState.clickToAdd"

  /** The declared keys each locale file leaves out. */
  function Missing(l: Lang): set<string> {
    match l
    case En => {PermissionRequired, TestFailed}
    case Ja => {PermissionRequired, TestFailed}
    case Es => {PermissionRequired, TestFailed, NoDirectories, ClickToAdd}
    case Pt => {PermissionRequired, TestFailed}
    case _ => {}
  }

  /** The tables define, with a non-empty string, exactly the declared keys
      their locale file does not leave out. */
  predicate Catalog(tables: Lang -> Table) {
    forall l: Lang, i :: 0 <= i < |RendererKeys| ==>
      (Has(tables(l), RendererKeys[i]) <==> RendererKeys[i] !in Missing(l))
  }

  /** A key left out of both the current and the English table is shown as
      the key itself. */
  lemma MissingKeyVerbatim(tables: Lang -> Table, current: Lang)
    requires Catalog(tables)
    requires current in {En, Ja, Es, Pt}
    ensures Translate(tables, current, PermissionRequired, None) == PermissionRequired
    ensures Translate(tables, current, TestFailed, None) == TestFailed
  {
    assert RendererKeys[44] == PermissionRequired;
    assert RendererKeys[45] == TestFailed;
  }

  /** A key left out of the current table but present in English is shown in
      English: the Spanish table lacks the empty-state texts. */
  lemma EnglishFallback(tables: Lang -> Table)
    requires Catalog(tables)
    ensures Has(tables(En), NoDirectories) && Translate(tables, Es, NoDirectories, None) == tables(En)[NoDirectories]
    ensures Has(tables(En), ClickToAdd) && Translate(tables, Es, ClickToAdd, None) == tables(En)[ClickToAdd]
  {
    assert RendererKeys[46] == NoDirectories;
    assert RendererKeys[47] == ClickToAdd;
  }

  /** A key every table defines is shown in the current language. */
  lemma DefinedKeyTranslated(tables: Lang -> Table, current: Lang, i: nat)
    requires Catalog(tables) && i < |RendererKeys|
    requires RendererKeys[i] !in Missing(current)
    ensures Translate(tables, current, RendererKeys[i], None) == tables(current)[RendererKeys[i]]
  {
  }

  // ---------------------------------------------------------------------------
  // Languages and their names

  /** `getSupportedLanguages`: the codes in table order. */
  function SupportedLanguages(): (r: seq<string>)
    ensures |r| == |Supported|
    ensures forall i :: 0 <= i < |r| ==> r[i] == Code(Supported[i])
  {
    seq(|Supported|, i requires 0 <= i < |Supported| => Code(Supported[i]))
  }

  /** Every listed code resolves to its own language. */
  lemma SupportedLanguagesResolve(i: nat)
    requires i < |SupportedLanguages()|
    ensures MapToSupported(SupportedLanguages()[i]) == Supported[i]
  {
    MapIdempotent(Supported[i]);
  }

  function NativeName(l: Lang): string {
    match l
    case En => "English"
    case Ja => "日本語"
    case ZhCN => "简体中文"
    case Es => "Español"
    case Fr => "Français"
    case De => "Deutsch"
    case Ko => "한국어"
    case Pt => "Português"
  }

  /** `getLanguageName`: the native name of a supported code, else the value
      itself. The parameter is declared as a language code and every caller
      passes one; a string that names an inherited object member would find
      that member instead, so the fallback is stated for other strings only. */
  function LanguageName(code: string): (r: string)
    ensures FromCode(code).Some? ==> r == NativeName(FromCode(code).value) && r != code
    ensures FromCode(code).None? && code !in ObjectMembers ==> r == code
  {
    match FromCode(code)
    case Some(l) => NativeName(l)
    case None => code
  }

  /** Names tell the languages apart, and no name is a code. */
  lemma NamesDistinct(a: Lang, b: Lang)
    ensures NativeName(a) == NativeName(b) ==> a == b
    ensures NativeName(a) != Code(b)
  {
  }

  // ---------------------------------------------------------------------------
  // Listeners and setLanguage

  /** A registered callback, compared by identity. */
  datatype Listener = Listener(id: nat)

  datatype State = State(current: Lang, listeners: seq<Listener>)

  function AddListener(s: State, x: Listener): (t: State)
    ensures t.current == s.current
    ensures |t.listeners| == |s.listeners| + 1 && t.listeners[|s.listeners|] == x
    ensures t.listeners[..|s.listeners|] == s.listeners
  {
    s.(listeners := s.listeners + [x])
  }

  /** The listeners other than `x`, in their order. */
  function Without(ls: seq<Listener>, x: Listener): (r: seq<Listener>)
    ensures x !in r
    ensures forall y :: y != x ==> multiset(r)[y] == multiset(ls)[y]
  {
    if ls == [] then []
    else
      assert ls == [ls[0]] + ls[1..];
      if ls[0] == x then Without(ls[1..], x) else [ls[0]] + Without(ls[1..], x)
  }

  function RemoveListener(s: State, x: Listener): (t: State)
    ensures t.current == s.current
    ensures x !in t.listeners
    ensures forall y :: y != x ==> multiset(t.listeners)[y] == multiset(s.listeners)[y]
  {
    s.(listeners := Without(s.listeners, x))
  }

  /** Removing distributes over concatenation, so the survivors keep their
      relative order. */
  lemma {:induction false} WithoutAppend(a: seq<Listener>, b: seq<Listener>, x: Listener)
    ensures Without(a + b, x) == Without(a, x) + Without(b, x)
  {
    if a != [] {
      assert (a + b)[1..] == a[1..] + b;
      WithoutAppend(a[1..], b, x);
    } else {
      assert a + b == b;
    }
  }

  /** Removing a listener that is not registered changes nothing. */
  lemma {:induction false} WithoutAbsent(ls: seq<Listener>, x: Listener)
    requires x !in ls
    ensures Without(ls, x) == ls
  {
    if ls != [] {
      WithoutAbsent(ls[1..], x);
    }
  }

  /** Removing a listener just added restores the list, when it was not
      registered before. */
  lemma RemoveUndoesAdd(s: State, x: Listener)
    requires x !in s.listeners
    ensures RemoveListener(AddListener(s, x), x) == s
  {
    WithoutAppend(s.listeners, [x], x);
    WithoutAbsent(s.listeners, x);
  }

  /** `setLanguage`: the language, or English when there is no table for the
      value; in both cases every registered listener is called once, in
      registration order. */
  function SetLanguage(s: State, m: Mapped): (r: (State, seq<Listener>))
    ensures m.Known? ==> r.0.current == m.lang
    ensures m.NotALanguage? ==> r.0.current == En
    ensures r.0.listeners == s.listeners && r.1 == s.listeners
  {
    (s.(current := Select(m)), s.listeners)
  }

  /** The start-up of a window: the detected locale is resolved and set, which
      lands on the intended language and notifies every listener. */
  lemma StartUp(s: State, locale: string)
    ensures SetLanguage(s, MapAsWritten(locale)).0.current == MapToSupported(locale)
    ensures SetLanguage(s, MapAsWritten(locale)).1 == s.listeners
  {
    SelectMasksDefect(locale);
  }
}
