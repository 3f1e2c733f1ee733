/** The `Scraper` class of src/services/robot.service.ts: its browser
    state (`context`, `page`), the two sign-ins, the extraction of each case
    and `run`, which always closes the browser at the end.

    The browser is not simulated. A `Browser` value says what the outside
    world does: whether the persistent context launches, which selectors
    become visible within their timeouts, and which page each case-search
    URL shows. What the scraper does to the browser is recorded as a trace of
    events. */
module Scraper {

  import opened Wrappers
  import opened ProcessNumber
  import opened Extraction

  const PrestoLoginUrl := "https://console.presto.oystr.com.br/"
  const SistemaLoginUrl := "https://esaj.tjsp.jus.br/sajcas/login"

  // Selectors of the Presto console.
  const SairXpath := "//button[text()=\"Sair\"]"
  const TextInput := "input[type=text]"
  const AcessarButton := "//button[text()=\"Acessar\"]"
  const PasswordInput := "input[type=password]"
  const LoginButton := "//button[text()=\"Login\"]"
  const SairButton := "button[title=Sair]"

  // Selectors of the court's certificate sign-in.
  const CertificateTab := "a[id=linkAbaCertificado]"
  const CertificateList := "#certificados"
  const CertificateOwner := "text=/Guilherme/"
  const SubmitCertificate := "input[type='button'][id='submitCertificado']:not([style*='display: none'])"
  const PinInput := "input[placeholder='PIN']"
  const PinXpath := "//input[@placeholder='PIN']"
  const ValidateButton := "//button[text()='Validar']"
  const MenuTitle := "#menu-title"

  /** The table every case page is waited for. */
  const LatestMovements := "#tabelaUltimasMovimentacoes"

  /** The pause after each case. */
  const PauseMs := 1000

  /** The Presto e-mail, password and PIN of the configuration. */
  datatype Config = Config(prestoEmail: string, prestoSenha: string, prestoPin: string)

  /** A case page: the rows of the full movement table, if it is there, and
      the metadata elements. */
  datatype CasePage = CasePage(allMovements: Option<seq<seq<string>>>, elements: CaseElements)

  /** What the outside world does. `visible` holds the selectors that appear
      within their timeouts; `pages` maps each URL whose page shows the
      latest-movements table to that page; `certificateLabel` is the text of
      the certificate option. */
  datatype Browser = Browser(
    launches: bool,
    hasTab: bool,
    visible: set<string>,
    certificateLabel: string,
    pages: map<string, CasePage>)

  /** What the scraper does to the browser, in order. */
  datatype Event =
    | RegisterCleanup                       // init(): the signal handlers
    | Launch                                // launchPersistentContext
    | OpenTab                               // context.newPage()
    | Goto(url: string)
    | WaitVisible(selector: string)
    | Fill(selector: string, value: string)
    | Click(selector: string)
    | SelectOption(selector: string, choice: string)
    | Pause(ms: nat)
    | CloseBrowser                          // context.close()

  datatype ScrapeError =
    | PageNotInitialized        // "Page not initialized"
    | LaunchFailed              // launchPersistentContext rejected
    | Timeout(selector: string) // a wait for `selector` ran out
    | JsonParseError            // JSON.parse(undefined) at the end of run

  /** Which tab the scraper works in: the one the context opened with, or a
      new one. */
  datatype Tab = FirstTab | NewTab

  /** The events of one phase and how it ended. */
  datatype Phase = Phase(events: seq<Event>, outcome: Outcome<ScrapeError>)

  // ---------------------------------------------------------------------
  // isLoggedIn

  /** What `locator.waitFor(...)` settles to once `.catch(() => false)` is
      attached: it resolves to `undefined` when the element shows up, and
      the catch turns a timeout into `false`. */
  datatype WaitResult = ResolvedUndefined | CaughtFalse

  function WaitFor(visible: bool): (w: WaitResult)
    ensures w == ResolvedUndefined <==> visible
  {
    if visible then ResolvedUndefined else CaughtFalse
  }

  /** JavaScript truthiness of the settled value: both are falsy. */
  predicate Truthy(w: WaitResult) {
    match w
    case ResolvedUndefined => false // undefined
    case CaughtFalse => false       // false
  }

  /** isLoggedIn as written: `if (!isLoggedIn) return false; return true`
      over the settled value. Neither value is truthy, so it never reports
      a session. */
  function IsLoggedInAsWritten(w: WaitResult): (r: bool)
    ensures !r
  {
    if !Truthy(w) then false else true
  }

  /** The evident intent: logged in exactly when the wait resolved. */
  function IsLoggedIn(w: WaitResult): (r: bool)
    ensures r <==> w == ResolvedUndefined
  {
    match w
    case ResolvedUndefined => true
    case CaughtFalse => false
  }

  /** With the "Sair" button on screen, the code as written still answers
      "not logged in", where the intended check answers "logged in". */
  lemma IsLoggedInMissesSession()
    ensures IsLoggedInAsWritten(WaitFor(true)) == false
    ensures IsLoggedIn(WaitFor(true)) == true
    ensures forall v :: IsLoggedIn(WaitFor(v)) == v
  {
  }

  // ---------------------------------------------------------------------
  // The phases, as functions of the browser

  /** The events `pre`, then a wait for `sel`; if `sel` never shows up the
      phase stops there with a timeout, otherwise it goes on with `rest`. */
  function AwaitThen(env: Browser, pre: seq<Event>, sel: string, rest: Phase): (p: Phase)
    ensures pre + [WaitVisible(sel)] <= p.events
    ensures sel !in env.visible ==> p == Phase(pre + [WaitVisible(sel)], Fail(Timeout(sel)))
    ensures sel in env.visible ==> p.outcome == rest.outcome
  {
    if sel in env.visible then Phase(pre + [WaitVisible(sel)] + rest.events, rest.outcome)
    else Phase(pre + [WaitVisible(sel)], Fail(Timeout(sel)))
  }

  /** loginPresto once the page exists, for a given answer of the session
      probe: open the console and, unless the probe reported a session, fill
      in the e-mail and password and wait for the "Sair" button. */
  function PrestoPhaseBy(env: Browser, cfg: Config, signedIn: bool): Phase {
    var head := [Goto(PrestoLoginUrl), WaitVisible(SairXpath)];
    if signedIn then Phase(head, Pass)
    else AwaitThen(env, head + [Fill(TextInput, cfg.prestoEmail), Click(AcessarButton),
                                Fill(PasswordInput, cfg.prestoSenha), Click(LoginButton)],
                   SairButton, Phase([], Pass))
  }

  /** loginPresto as written: the probe is isLoggedIn as written. */
  function PrestoPhase(env: Browser, cfg: Config): Phase {
    PrestoPhaseBy(env, cfg, IsLoggedInAsWritten(WaitFor(SairXpath in env.visible)))
  }

  /** loginPresto with the corrected probe. */
  function PrestoPhaseIntended(env: Browser, cfg: Config): Phase {
    PrestoPhaseBy(env, cfg, IsLoggedIn(WaitFor(SairXpath in env.visible)))
  }

  /** loginSistema once the page exists: the certificate tab, the option of
      the certificate, then the PIN. */
  function SistemaPhase(env: Browser, cfg: Config): Phase {
    AwaitThen(env, [Goto(SistemaLoginUrl), Click(CertificateTab)], CertificateList,
      AwaitThen(env, [], CertificateOwner, PinPhase(env, cfg)))
  }

  /** The part of loginSistema after the certificate list: the option of the
      certificate, then the PIN. */
  function PinPhase(env: Browser, cfg: Config): Phase {
    AwaitThen(env, [SelectOption(CertificateList, env.certificateLabel), Click(SubmitCertificate)], PinInput,
      AwaitThen(env, [Fill(PinXpath, cfg.prestoPin), Click(ValidateButton)], MenuTitle,
        Phase([], Pass)))
  }

  /** When both certificate waits pass, the certificate sign-in's events are
      those four steps followed by the PIN part's. */
  lemma SistemaEvents(env: Browser, cfg: Config, t0: seq<Event>, t1: seq<Event>, t2: seq<Event>)
    requires CertificateList in env.visible && CertificateOwner in env.visible
    requires t1 == t0 + [Goto(SistemaLoginUrl)] + [Click(CertificateTab)] + [WaitVisible(CertificateList)]
      + [WaitVisible(CertificateOwner)]
    requires t2 == t1 + PinPhase(env, cfg).events
    ensures t2 == t0 + SistemaPhase(env, cfg).events
    ensures SistemaPhase(env, cfg).outcome == PinPhase(env, cfg).outcome
  {
    var pin := PinPhase(env, cfg).events;
    assert SistemaPhase(env, cfg).events
      == [Goto(SistemaLoginUrl), Click(CertificateTab), WaitVisible(CertificateList), WaitVisible(CertificateOwner)] + pin;
  }

  /** The events of opening a case page, and what is found there. */
  function VisitEvents(n: string): seq<Event> {
    [Goto(SearchUrl(n)), WaitVisible(LatestMovements)]
  }

  /** The extraction loop of run: what the events are and what map is built
      after visiting the numbers `ns` in order, stopping at the first case
      whose page does not show. */
  datatype Extracted = Extracted(events: seq<Event>, result: Result<map<string, Metadata>, ScrapeError>)

  function ExtractAll(env: Browser, ns: seq<string>): (x: Extracted)
    decreases |ns|
  {
    if ns == [] then Extracted([], Success(map[]))
    else
      var before := ExtractAll(env, ns[..|ns| - 1]);
      var n := ns[|ns| - 1];
      if before.result.Failure? then before
      else if SearchUrl(n) in env.pages then
        Extracted(before.events + VisitEvents(n) + [Pause(PauseMs)],
                  Success(before.result.value[n := MetadataOf(env.pages[SearchUrl(n)].elements)]))
      else Extracted(before.events + VisitEvents(n), Failure(Timeout(LatestMovements)))
  }

  function LaunchEvents(env: Browser): seq<Event> {
    [Launch] + (if env.hasTab then [] else [OpenTab])
  }

  function CloseEvents(hasContext: bool): seq<Event> {
    if hasContext then [CloseBrowser] else []
  }

  /** run, from a scraper whose context exists (`hadContext`) or not. */
  function RunSpec(env: Browser, cfg: Config, hadContext: bool, ns: seq<string>): Extracted {
    if !env.launches then Extracted([RegisterCleanup] + CloseEvents(hadContext), Failure(LaunchFailed))
    else
      var start := [RegisterCleanup] + LaunchEvents(env);
      var presto := PrestoPhase(env, cfg);
      if presto.outcome.Fail? then Extracted(start + presto.events + [CloseBrowser], Failure(presto.outcome.error))
      else
        var sistema := SistemaPhase(env, cfg);
        if sistema.outcome.Fail? then
          Extracted(start + presto.events + sistema.events + [CloseBrowser], Failure(sistema.outcome.error))
        else
          var x := ExtractAll(env, ns);
          var result := if x.result.Success? && ns == [] then Failure(JsonParseError) else x.result;
          Extracted(start + presto.events + sistema.events + x.events + [CloseBrowser], result)
  }

  // ---------------------------------------------------------------------
  // Properties of the phases

  /** The form the Presto sign-in fills in, from the navigation on. */
  function PrestoFormEvents(cfg: Config): seq<Event> {
    [Goto(PrestoLoginUrl), WaitVisible(SairXpath), Fill(TextInput, cfg.prestoEmail), Click(AcessarButton),
     Fill(PasswordInput, cfg.prestoSenha), Click(LoginButton), WaitVisible(SairButton)]
  }

  /** loginPresto as written: whatever the page shows, the form is filled in
      and the sign-in passes exactly when the "Sair" button shows up after it;
      otherwise it fails on that button's timeout. */
  lemma PrestoAlwaysFillsForm(env: Browser, cfg: Config)
    ensures PrestoPhase(env, cfg).events == PrestoFormEvents(cfg)
    ensures PrestoPhase(env, cfg).outcome == Pass <==> SairButton in env.visible
    ensures PrestoPhase(env, cfg).outcome.Fail? ==> PrestoPhase(env, cfg).outcome.error == Timeout(SairButton)
  {
    assert !IsLoggedInAsWritten(WaitFor(SairXpath in env.visible));
  }

  /** A session that is already open but whose page lacks the "Sair" button:
      the code as written fills the form and fails on that button, where the
      corrected probe would have passed without touching the form. */
  lemma PrestoSessionMissed(env: Browser, cfg: Config)
    requires SairXpath in env.visible && SairButton !in env.visible
    ensures PrestoPhase(env, cfg).outcome == Fail(Timeout(SairButton))
    ensures PrestoPhaseIntended(env, cfg).outcome == Pass
  {
    PrestoAlwaysFillsForm(env, cfg);
  }

  /** With the corrected probe an existing Presto session skips the form:
      nothing is filled in. Without one the e-mail and the password are typed
      in. */
  lemma PrestoSkipsFormWhenSignedIn(env: Browser, cfg: Config)
    ensures SairXpath in env.visible ==>
      PrestoPhaseIntended(env, cfg) == Phase([Goto(PrestoLoginUrl), WaitVisible(SairXpath)], Pass)
    ensures SairXpath !in env.visible ==>
      var ev := PrestoPhaseIntended(env, cfg).events;
      Fill(TextInput, cfg.prestoEmail) in ev && Fill(PasswordInput, cfg.prestoSenha) in ev
  {
    var ev := PrestoPhaseIntended(env, cfg).events;
    if SairXpath !in env.visible {
      assert ev[2] == Fill(TextInput, cfg.prestoEmail);
      assert ev[4] == Fill(PasswordInput, cfg.prestoSenha);
    }
  }

  /** With the corrected probe the Presto sign-in succeeds iff the session is
      there or the "Sair" button shows up after the form. */
  lemma PrestoOutcome(env: Browser, cfg: Config)
    ensures PrestoPhaseIntended(env, cfg).outcome == Pass <==> SairXpath in env.visible || SairButton in env.visible
    ensures PrestoPhaseIntended(env, cfg).outcome.Fail? ==>
      PrestoPhaseIntended(env, cfg).outcome.error == Timeout(SairButton)
  {
  }

  /** The certificate sign-in succeeds iff all four things it waits for show
      up; otherwise it stops at the first that does not. */
  lemma SistemaOutcome(env: Browser, cfg: Config)
    ensures SistemaPhase(env, cfg).outcome == Pass <==>
      CertificateList in env.visible && CertificateOwner in env.visible
      && PinInput in env.visible && MenuTitle in env.visible
    ensures CertificateList !in env.visible ==> SistemaPhase(env, cfg).outcome == Fail(Timeout(CertificateList))
    ensures CertificateList in env.visible && CertificateOwner !in env.visible ==>
      SistemaPhase(env, cfg).outcome == Fail(Timeout(CertificateOwner))
    ensures Fill(PinXpath, cfg.prestoPin) in SistemaPhase(env, cfg).events ==> PinInput in env.visible
  {
  }

  /** Once one case fails, the cases after it change nothing: they are not
      visited and the failure is what run ends with. */
  lemma {:induction false} FailureSkipsRest(env: Browser, ns: seq<string>, more: seq<string>)
    requires ExtractAll(env, ns).result.Failure?
    ensures ExtractAll(env, ns + more) == ExtractAll(env, ns)
    decreases |more|
  {
    if more != [] {
      var init := more[..|more| - 1];
      assert (ns + more)[..|ns + more| - 1] == ns + init;
      FailureSkipsRest(env, ns, init);
    } else {
      assert ns + more == ns;
    }
  }

  /** The numbers of the list, as a set. */
  function Numbers(ns: seq<string>): set<string> {
    set n | n in ns
  }

  lemma MemberOfInitOrLast(ns: seq<string>)
    requires ns != []
    ensures forall n :: n in ns <==> n in ns[..|ns| - 1] || n == ns[|ns| - 1]
    ensures Numbers(ns) == Numbers(ns[..|ns| - 1]) + {ns[|ns| - 1]}
  {
    assert ns == ns[..|ns| - 1] + [ns[|ns| - 1]];
  }

  /** The loop succeeds iff every case page shows; a failure is the
      timeout of the movement table. */
  lemma {:induction false} ExtractAllSucceeds(env: Browser, ns: seq<string>)
    ensures ExtractAll(env, ns).result.Success? <==> forall n :: n in ns ==> SearchUrl(n) in env.pages
    ensures ExtractAll(env, ns).result.Failure? ==> ExtractAll(env, ns).result.error == Timeout(LatestMovements)
    decreases |ns|
  {
    if ns != [] {
      var init := ns[..|ns| - 1];
      MemberOfInitOrLast(ns);
      ExtractAllSucceeds(env, init);
    }
  }

  /** On success the map has exactly the numbers as keys, each bound to the
      metadata of its own page. */
  lemma ExtractAllMap(env: Browser, ns: seq<string>)
    requires ExtractAll(env, ns).result.Success?
    ensures var m := ExtractAll(env, ns).result.value;
      m.Keys == Numbers(ns)
      && forall n :: n in ns ==> SearchUrl(n) in env.pages && m[n] == MetadataOf(env.pages[SearchUrl(n)].elements)
  {
    ExtractAllKeys(env, ns);
    ExtractAllValues(env, ns);
  }

  lemma {:induction false} ExtractAllKeys(env: Browser, ns: seq<string>)
    requires ExtractAll(env, ns).result.Success?
    ensures ExtractAll(env, ns).result.value.Keys == Numbers(ns)
    decreases |ns|
  {
    if ns != [] {
      MemberOfInitOrLast(ns);
      ExtractStep(env, ns);
      ExtractAllKeys(env, ns[..|ns| - 1]);
    }
  }

  lemma {:induction false} ExtractAllValues(env: Browser, ns: seq<string>)
    requires ExtractAll(env, ns).result.Success?
    ensures var m := ExtractAll(env, ns).result.value;
      forall n :: n in ns ==> SearchUrl(n) in env.pages && n in m && m[n] == MetadataOf(env.pages[SearchUrl(n)].elements)
    decreases |ns|
  {
    if ns != [] {
      var init := ns[..|ns| - 1];
      var last := ns[|ns| - 1];
      MemberOfInitOrLast(ns);
      ExtractStep(env, ns);
      ExtractAllValues(env, init);
    }
  }

  /** A successful loop succeeded on all but the last number, whose page
      showed and whose metadata it added. */
  lemma ExtractStep(env: Browser, ns: seq<string>)
    requires ns != [] && ExtractAll(env, ns).result.Success?
    ensures var init, last := ns[..|ns| - 1], ns[|ns| - 1];
      && ExtractAll(env, init).result.Success? && SearchUrl(last) in env.pages
      && ExtractAll(env, ns).result.value
        == ExtractAll(env, init).result.value[last := MetadataOf(env.pages[SearchUrl(last)].elements)]
  {
  }

  /** The loop stops at a number whose page does not show, with what it
      had done before and the visit of that page. */
  lemma ExtractFails(env: Browser, ns: seq<string>, i: nat)
    requires i < |ns| && ExtractAll(env, ns[..i]).result.Success? && SearchUrl(ns[i]) !in env.pages
    ensures ExtractAll(env, ns)
      == Extracted(ExtractAll(env, ns[..i]).events + VisitEvents(ns[i]), Failure(Timeout(LatestMovements)))
  {
    assert ns[..i + 1][..i] == ns[..i];
    PrefixThenRest(ns, i + 1);
    FailureSkipsRest(env, ns[..i + 1], ns[i + 1..]);
  }

  /** A number whose page shows adds its metadata and a pause. */
  lemma ExtractGoesOn(env: Browser, ns: seq<string>, i: nat)
    requires i < |ns| && ExtractAll(env, ns[..i]).result.Success? && SearchUrl(ns[i]) in env.pages
    ensures var before, after := ExtractAll(env, ns[..i]), ExtractAll(env, ns[..i + 1]);
      && after.events == before.events + VisitEvents(ns[i]) + [Pause(PauseMs)]
      && after.result == Success(before.result.value[ns[i] := MetadataOf(env.pages[SearchUrl(ns[i])].elements)])
  {
    InitOfTake(ns, i);
    ExtractEventsUnfold(env, ns[..i], ns[i]);
    ExtractResultUnfold(env, ns[..i], ns[i]);
  }

  /** One more number whose page shows, as ExtractAll takes it: the events so
      far, then the visit and the pause. */
  lemma ExtractEventsUnfold(env: Browser, init: seq<string>, n: string)
    requires ExtractAll(env, init).result.Success? && SearchUrl(n) in env.pages
    ensures ExtractAll(env, init + [n]).events == ExtractAll(env, init).events + VisitEvents(n) + [Pause(PauseMs)]
  {
    LastOfSnoc(init, n);
  }

  /** One more number whose page shows: the map so far, with that number's
      metadata added. */
  lemma ExtractResultUnfold(env: Browser, init: seq<string>, n: string)
    requires ExtractAll(env, init).result.Success? && SearchUrl(n) in env.pages
    ensures ExtractAll(env, init + [n]).result
      == Success(ExtractAll(env, init).result.value[n := MetadataOf(env.pages[SearchUrl(n)].elements)])
  {
    LastOfSnoc(init, n);
  }

  lemma LastOfSnoc(init: seq<string>, n: string)
    ensures (init + [n])[..|init|] == init && (init + [n])[|init|] == n && |init + [n]| == |init| + 1
  {
  }

  lemma InitOfTake(ns: seq<string>, i: nat)
    requires i < |ns|
    ensures ns[..i + 1] == ns[..i] + [ns[i]]
  {
  }

  /** The events of the loop never close the browser. */
  lemma {:induction false} ExtractAllNeverCloses(env: Browser, ns: seq<string>)
    ensures CloseBrowser !in ExtractAll(env, ns).events
    decreases |ns|
  {
    if ns != [] {
      ExtractAllNeverCloses(env, ns[..|ns| - 1]);
    }
  }

  /** Every run registers the cleanup handlers first. */
  lemma RunRegistersCleanupFirst(env: Browser, cfg: Config, hadContext: bool, ns: seq<string>)
    ensures var ev := RunSpec(env, cfg, hadContext, ns).events;
      |ev| >= 1 && ev[0] == RegisterCleanup
  {
  }

  /** run closes the browser exactly once, as its last step, whenever a
      context exists by then (it launched, or was there before); otherwise
      nothing is closed. */
  lemma RunClosesOnceAtTheEnd(env: Browser, cfg: Config, hadContext: bool, ns: seq<string>)
    ensures var ev := RunSpec(env, cfg, hadContext, ns).events;
      (env.launches || hadContext) ==> ev[|ev| - 1] == CloseBrowser && CloseBrowser !in ev[..|ev| - 1]
    ensures var ev := RunSpec(env, cfg, hadContext, ns).events;
      !(env.launches || hadContext) ==> CloseBrowser !in ev
  {
    if env.launches {
      RunClosesOnceLaunched(env, cfg, hadContext, ns);
    } else if hadContext {
      ClosedLast([RegisterCleanup]);
    }
  }

  lemma RunClosesOnceLaunched(env: Browser, cfg: Config, hadContext: bool, ns: seq<string>)
    requires env.launches
    ensures var ev := RunSpec(env, cfg, hadContext, ns).events;
      ev[|ev| - 1] == CloseBrowser && CloseBrowser !in ev[..|ev| - 1]
  {
    var start := [RegisterCleanup] + LaunchEvents(env);
    var presto := PrestoPhase(env, cfg);
    PhasesNeverClose(env, cfg);
    if presto.outcome.Fail? {
      ClosedLast(start + presto.events);
    } else {
      var sistema := SistemaPhase(env, cfg);
      if sistema.outcome.Fail? {
        ClosedLast(start + presto.events + sistema.events);
      } else {
        ExtractAllNeverCloses(env, ns);
        ClosedLast(start + presto.events + sistema.events + ExtractAll(env, ns).events);
      }
    }
  }

  /** Neither sign-in closes the browser. */
  lemma PhasesNeverClose(env: Browser, cfg: Config)
    ensures CloseBrowser !in [RegisterCleanup] + LaunchEvents(env)
    ensures CloseBrowser !in PrestoPhase(env, cfg).events
    ensures CloseBrowser !in SistemaPhase(env, cfg).events
  {
    PrestoNeverCloses(env, cfg);
    SistemaNeverCloses(env, cfg);
  }

  lemma PrestoNeverCloses(env: Browser, cfg: Config)
    ensures CloseBrowser !in PrestoPhase(env, cfg).events
  {
  }

  lemma SistemaNeverCloses(env: Browser, cfg: Config)
    ensures CloseBrowser !in SistemaPhase(env, cfg).events
  {
  }

  /** Closing after events that never close closes once, at the end. */
  lemma ClosedLast(before: seq<Event>)
    requires CloseBrowser !in before
    ensures var ev := before + [CloseBrowser];
      ev[|ev| - 1] == CloseBrowser && CloseBrowser !in ev[..|ev| - 1]
  {
    var ev := before + [CloseBrowser];
    assert ev[..|ev| - 1] == before;
  }

  /** run produces a map iff the browser launches, both sign-ins succeed,
      the list is not empty and every page shows. */
  lemma RunSucceeds(env: Browser, cfg: Config, hadContext: bool, ns: seq<string>)
    ensures var r := RunSpec(env, cfg, hadContext, ns).result;
      r.Success? <==> (env.launches && PrestoPhase(env, cfg).outcome == Pass
                       && SistemaPhase(env, cfg).outcome == Pass && ns != []
                       && forall n :: n in ns ==> SearchUrl(n) in env.pages)
  {
    ExtractAllSucceeds(env, ns);
  }

  /** The map run produces binds every number of the list, and only those,
      to the metadata of its page. */
  lemma RunMap(env: Browser, cfg: Config, hadContext: bool, ns: seq<string>)
    requires RunSpec(env, cfg, hadContext, ns).result.Success?
    ensures var m := RunSpec(env, cfg, hadContext, ns).result.value;
      m.Keys == Numbers(ns)
      && forall n :: n in ns ==> SearchUrl(n) in env.pages && m[n] == MetadataOf(env.pages[SearchUrl(n)].elements)
  {
    ExtractAllMap(env, ns);
  }

  /** With an empty list run fails at parsing the missing JSON, once both
      sign-ins succeed. */
  lemma RunEmptyList(env: Browser, cfg: Config, hadContext: bool)
    requires env.launches && PrestoPhase(env, cfg).outcome == Pass && SistemaPhase(env, cfg).outcome == Pass
    ensures RunSpec(env, cfg, hadContext, []).result == Failure(JsonParseError)
  {
  }

  lemma PrefixThenRest(ns: seq<string>, k: nat)
    requires k <= |ns|
    ensures ns[..k] + ns[k..] == ns
  {
  }

  lemma SeqAssoc3(a: seq<Event>, b: seq<Event>, c: seq<Event>)
    ensures a + b + c == a + (b + c)
  {
  }

  lemma SeqAssoc4(a: seq<Event>, b: seq<Event>, c: seq<Event>, d: seq<Event>)
    ensures a + b + c + d == a + (b + c + d)
  {
  }

  lemma SeqAssoc5(a: seq<Event>, b: seq<Event>, c: seq<Event>, d: seq<Event>, e: seq<Event>)
    ensures a + b + c + d + e == a + (b + c + d + e)
  {
  }

  lemma SeqAssoc6(a: seq<Event>, b: seq<Event>, c: seq<Event>, d: seq<Event>, e: seq<Event>, f: seq<Event>)
    ensures a + b + c + d + e + f == a + (b + c + d + e + f)
  {
  }

  // ---------------------------------------------------------------------
  // The class

  class Scraper {
    const env: Browser
    const cfg: Config
    var page: Option<Tab>
    var context: bool
    var trace: seq<Event>

    constructor (env: Browser, cfg: Config)
      ensures this.env == env && this.cfg == cfg
      ensures page == None && !context && trace == []
    {
      this.env := env;
      this.cfg := cfg;
      page := None;
      context := false;
      trace := [];
    }

    method Act(e: Event)
      modifies this`trace
      ensures trace == old(trace) + [e]
    {
      trace := trace + [e];
    }

    /** waitForSelector: records the wait and fails unless the selector
        shows up. */
    method Await(sel: string) returns (o: Outcome<ScrapeError>)
      modifies this`trace
      ensures trace == old(trace) + [WaitVisible(sel)]
      ensures o == (if sel in env.visible then Pass else Fail(Timeout(sel)))
    {
      Act(WaitVisible(sel));
      o := if sel in env.visible then Pass else Fail(Timeout(sel));
    }

    /** init(): registers the cleanup handlers. */
    method Init()
      modifies this`trace
      ensures trace == old(trace) + [RegisterCleanup]
    {
      Act(RegisterCleanup);
    }

    /** close(): closes the context only if there is one. */
    method Close()
      modifies this`trace
      ensures trace == old(trace) + CloseEvents(context)
    {
      if context {
        Act(CloseBrowser);
      }
    }

    /** initiateBrowser(): launches the persistent context and works in its
        first tab, or in a new one when it has none. A failed launch leaves
        both fields as they were. */
    method InitiateBrowser() returns (o: Outcome<ScrapeError>)
      modifies this`page, this`context, this`trace
      ensures o == (if env.launches then Pass else Fail(LaunchFailed))
      ensures env.launches ==> context && page == Some(if env.hasTab then FirstTab else NewTab)
                               && trace == old(trace) + LaunchEvents(env)
      ensures !env.launches ==> page == old(page) && context == old(context) && trace == old(trace)
    {
      if !env.launches {
        return Fail(LaunchFailed);
      }
      Act(Launch);
      context := true;
      if env.hasTab {
        page := Some(FirstTab);
      } else {
        Act(OpenTab);
        page := Some(NewTab);
      }
      o := Pass;
    }

    /** isLoggedIn(selector) as written: one wait, then the answer of the
        probe, which never reports a session. */
    method IsLoggedInBy(selector: string) returns (b: bool)
      requires page.Some?
      modifies this`trace
      ensures trace == old(trace) + [WaitVisible(selector)]
      ensures b == IsLoggedInAsWritten(WaitFor(selector in env.visible))
    {
      Act(WaitVisible(selector));
      b := IsLoggedInAsWritten(WaitFor(selector in env.visible));
    }

    method LoginPresto() returns (o: Outcome<ScrapeError>)
      modifies this`trace
      ensures page.None? ==> o == Fail(PageNotInitialized) && trace == old(trace)
      ensures page.Some? ==> o == PrestoPhase(env, cfg).outcome
                             && trace == old(trace) + PrestoPhase(env, cfg).events
    {
      if page.None? {
        return Fail(PageNotInitialized);
      }
      Act(Goto(PrestoLoginUrl));
      var loggedIn := IsLoggedInBy(SairXpath);
      if loggedIn {
        return Pass;
      }
      Act(Fill(TextInput, cfg.prestoEmail));
      Act(Click(AcessarButton));
      Act(Fill(PasswordInput, cfg.prestoSenha));
      Act(Click(LoginButton));
      o := Await(SairButton);
    }

    method LoginSistema() returns (o: Outcome<ScrapeError>)
      modifies this`trace
      ensures page.None? ==> o == Fail(PageNotInitialized) && trace == old(trace)
      ensures page.Some? ==> o == SistemaPhase(env, cfg).outcome
                             && trace == old(trace) + SistemaPhase(env, cfg).events
    {
      if page.None? {
        return Fail(PageNotInitialized);
      }
      Act(Goto(SistemaLoginUrl));
      Act(Click(CertificateTab));
      o := Await(CertificateList);
      if o.Fail? {
        return;
      }
      o := Await(CertificateOwner);
      if o.Fail? {
        return;
      }
      ghost var before := trace;
      o := EnterPin();
      SistemaEvents(env, cfg, old(trace), before, trace);
    }

    /** The certificate's option and the PIN, after the certificate list has
        shown up. */
    method EnterPin() returns (o: Outcome<ScrapeError>)
      modifies this`trace
      ensures o == PinPhase(env, cfg).outcome && trace == old(trace) + PinPhase(env, cfg).events
    {
      Act(SelectOption(CertificateList, env.certificateLabel));
      Act(Click(SubmitCertificate));
      o := Await(PinInput);
      if o.Fail? {
        return;
      }
      Act(Fill(PinXpath, cfg.prestoPin));
      Act(Click(ValidateButton));
      o := Await(MenuTitle);
    }

    /** Opens the search page of a case and waits for its movement table. */
    method OpenCase(n: string) returns (o: Outcome<ScrapeError>)
      modifies this`trace
      ensures trace == old(trace) + VisitEvents(n)
      ensures o == (if SearchUrl(n) in env.pages then Pass else Fail(Timeout(LatestMovements)))
    {
      Act(Goto(SearchUrl(n)));
      Act(WaitVisible(LatestMovements));
      o := if SearchUrl(n) in env.pages then Pass else Fail(Timeout(LatestMovements));
    }

    /** extrairAndamentos(n): the movements of the case, in table order. */
    method ExtrairAndamentos(n: string) returns (r: Result<seq<Movement>, ScrapeError>)
      modifies this`trace
      ensures page.None? ==> r == Failure(PageNotInitialized) && trace == old(trace)
      ensures page.Some? ==> trace == old(trace) + VisitEvents(n)
      ensures page.Some? && SearchUrl(n) !in env.pages ==> r == Failure(Timeout(LatestMovements))
      ensures page.Some? && SearchUrl(n) in env.pages ==>
        r == Success(Movements(env.pages[SearchUrl(n)].allMovements))
    {
      if page.None? {
        return Failure(PageNotInitialized);
      }
      var o := OpenCase(n);
      if o.Fail? {
        return Failure(o.error);
      }
      r := Success(Movements(env.pages[SearchUrl(n)].allMovements));
    }

    /** extrairMetadados(n): the metadata of the case. */
    method ExtrairMetadados(n: string) returns (r: Result<Metadata, ScrapeError>)
      modifies this`trace
      ensures page.None? ==> r == Failure(PageNotInitialized) && trace == old(trace)
      ensures page.Some? ==> trace == old(trace) + VisitEvents(n)
      ensures page.Some? && SearchUrl(n) !in env.pages ==> r == Failure(Timeout(LatestMovements))
      ensures page.Some? && SearchUrl(n) in env.pages ==>
        r == Success(MetadataOf(env.pages[SearchUrl(n)].elements))
    {
      if page.None? {
        return Failure(PageNotInitialized);
      }
      var o := OpenCase(n);
      if o.Fail? {
        return Failure(o.error);
      }
      r := Success(MetadataOf(env.pages[SearchUrl(n)].elements));
    }

    /** The `for` loop of run: the metadata of each number in list order,
        into the map, with a pause after each; the first failure ends it. */
    method ExtractEach(processos: seq<string>) returns (r: Result<map<string, Metadata>, ScrapeError>)
      requires page.Some?
      modifies this`trace
      ensures r == ExtractAll(env, processos).result
      ensures trace == old(trace) + ExtractAll(env, processos).events
    {
      ghost var t0 := trace;
      var found: map<string, Metadata> := map[];
      var i := 0;
      while i < |processos|
        invariant 0 <= i <= |processos|
        invariant ExtractAll(env, processos[..i]).result == Success(found)
        invariant trace == t0 + ExtractAll(env, processos[..i]).events
      {
        var n := processos[i];
        ghost var before := ExtractAll(env, processos[..i]);
        var data := ExtrairMetadados(n);
        if data.Failure? {
          ExtractFails(env, processos, i);
          SeqAssoc3(t0, before.events, VisitEvents(n));
          return Failure(data.error);
        }
        found := found[n := data.value];
        Act(Pause(PauseMs));
        ExtractGoesOn(env, processos, i);
        SeqAssoc4(t0, before.events, VisitEvents(n), [Pause(PauseMs)]);
        i := i + 1;
      }
      assert processos[..i] == processos;
      r := Success(found);
    }

    /** run(processos): the steps in their fixed order, then the metadata of
        each number, and close() in `finally` on every path. */
    method Run(processos: seq<string>) returns (r: Result<map<string, Metadata>, ScrapeError>)
      modifies this`page, this`context, this`trace
      ensures r == RunSpec(env, cfg, old(context), processos).result
      ensures trace == old(trace) + RunSpec(env, cfg, old(context), processos).events
      ensures page == (if env.launches then Some(if env.hasTab then FirstTab else NewTab) else old(page))
      ensures context == (old(context) || env.launches)
    {
      ghost var t0, c0 := trace, context;
      ghost var spec := RunSpec(env, cfg, c0, processos);
      Init();
      var o := InitiateBrowser();
      if o.Fail? {
        Close();
        assert trace == t0 + ([RegisterCleanup] + CloseEvents(c0));
        return Failure(o.error);
      }
      ghost var start := [RegisterCleanup] + LaunchEvents(env);
      assert trace == t0 + start;
      ghost var presto := PrestoPhase(env, cfg);
      o := LoginPresto();
      if o.Fail? {
        Close();
        assert spec.events == start + presto.events + [CloseBrowser];
        SeqAssoc4(t0, start, presto.events, [CloseBrowser]);
        return Failure(o.error);
      }
      ghost var t2 := trace;
      assert t2 == t0 + start + presto.events;
      ghost var sistema := SistemaPhase(env, cfg);
      o := LoginSistema();
      if o.Fail? {
        Close();
        assert spec.events == start + presto.events + sistema.events + [CloseBrowser];
        SeqAssoc5(t0, start, presto.events, sistema.events, [CloseBrowser]);
        return Failure(o.error);
      }
      ghost var t3 := trace;
      assert t3 == t2 + sistema.events;
      ghost var x := ExtractAll(env, processos);
      r := ExtractEach(processos);
      Close();
      assert trace == t3 + x.events + [CloseBrowser];
      assert spec.events == start + presto.events + sistema.events + x.events + [CloseBrowser];
      SeqAssoc6(t0, start, presto.events, sistema.events, x.events, [CloseBrowser]);
      if r.Success? && processos == [] {
        r := Failure(JsonParseError);
      }
    }
  }
}
