/** The ad-creation screen (`app/criar-anuncio.tsx`): the upload modal fills
    one slot of `uploadedFiles` per pick, and `handleFinalizar` checks the
    title, the plan and the session before building the `createAnuncio`
    payload from the first step of the form and the uploads. */
module CreateAd {
  import opened Wrappers
  import opened Strings
  import opened Database
  import opened Session

  /** `UploadedFile`: the name shown, the modal tab it came from, its URI. */
  datatype UploadedFile = UploadedFile(name: string, fileType: string, uri: string)

  /** `uploadedFiles`, keyed by upload slot. */
  type Uploads = map<string, UploadedFile>

  const CoverSlot := "cover"
  const ProdutoSlot := "produto"
  const DemoSlot := "demo"
  const DefaultTipoProduto := "Geral"

  /** Every field of the form. Only the first four take part in
      `handleFinalizar`; the campaign, date, region, period, audience and
      payment fields (dates as day numbers) are kept so that this can be
      stated. */
  datatype AdForm = AdForm(
    titulo: string, descricao: string, tipoProduto: string,
    planoSelecionado: Option<string>,
    nomeCampanha: string, dataInicio: Option<nat>, dataFim: Option<nat>,
    areaSelecionada: string, periodoSelecionado: string, tipoSelecionado: string,
    metodoPagamento: string, numeroCelular: string)

  datatype AdError = MissingTitle | MissingPlan | SessionExpired

  /** `planoSelecionado` is truthy: set and not empty. */
  predicate PlanChosen(plan: Option<string>)
  {
    plan.Some? && plan.value != ""
  }

  /** `uploadedFiles[slot]?.uri || ''`. */
  function UploadUri(files: Uploads, slot: string): (uri: string)
    ensures slot !in files ==> uri == ""
    ensures slot in files ==> uri == files[slot].uri
  {
    if slot in files then files[slot].uri else ""
  }

  /** The object passed to `createAnuncio`. */
  function BuildAnuncio(email: string, form: AdForm, files: Uploads): (a: AnuncioInput)
    ensures a.userEmail == email
    ensures a.titulo == form.titulo && a.descricao == form.descricao
    ensures a.tipoProduto == (if form.tipoProduto == "" then DefaultTipoProduto else form.tipoProduto)
    ensures a.tipoProduto != ""
    ensures a.capa == UploadUri(files, CoverSlot)
    ensures a.arquivoUrl == UploadUri(files, ProdutoSlot)
    ensures a.demoLink == UploadUri(files, DemoSlot)
  {
    AnuncioInput(
      email, form.titulo, form.descricao,
      if form.tipoProduto == "" then DefaultTipoProduto else form.tipoProduto,
      UploadUri(files, CoverSlot), UploadUri(files, ProdutoSlot), UploadUri(files, DemoSlot))
  }

  /** The checks of `handleFinalizar`, in order: a title with a non-space
      character, a chosen plan, a session with an email; then the payload,
      whose author is the session's email and whose title is the title as
      typed, untrimmed. */
  function ValidateAndBuild(form: AdForm, files: Uploads, session: Option<UserRow>)
    : (r: Result<AnuncioInput, AdError>)
    ensures r == Failure(MissingTitle) <==> IsBlank(form.titulo)
    ensures r == Failure(MissingPlan) <==>
      !IsBlank(form.titulo) && !PlanChosen(form.planoSelecionado)
    ensures r == Failure(SessionExpired) <==>
      !IsBlank(form.titulo) && PlanChosen(form.planoSelecionado) && SessionEmail(session).None?
    ensures r.Success? ==>
      && SessionEmail(session).Some?
      && r.value == BuildAnuncio(SessionEmail(session).value, form, files)
      && r.value.userEmail == session.value.email
      && r.value.titulo == form.titulo
  {
    if Trim(form.titulo) == "" then Failure(MissingTitle)
    else if !PlanChosen(form.planoSelecionado) then Failure(MissingPlan)
    else match SessionEmail(session)
      case None => Failure(SessionExpired)
      case Some(email) => Success(BuildAnuncio(email, form, files))
  }

  /** The payload does not depend on the campaign, date, region, period,
      audience or payment fields, nor on which plan was chosen. */
  lemma PayloadIgnoresCampaignFields(f: AdForm, g: AdForm, files: Uploads, session: Option<UserRow>)
    requires f.titulo == g.titulo && f.descricao == g.descricao && f.tipoProduto == g.tipoProduto
    requires PlanChosen(f.planoSelecionado) == PlanChosen(g.planoSelecionado)
    ensures ValidateAndBuild(f, files, session) == ValidateAndBuild(g, files, session)
  {
  }

  predicate IsDigits(s: string)
  {
    forall k :: 0 <= k < |s| ==> '0' <= s[k] <= '9'
  }

  /** The number a string of decimal digits stands for. */
  function DigitsValue(s: string): nat
    requires IsDigits(s)
  {
    if |s| == 0 then 0
    else DigitsValue(s[..|s| - 1]) * 10 + (s[|s| - 1] as int - '0' as int)
  }

  /** The decimal digits of `n`, as `String(n)` writes them. */
  function Decimal(n: nat): (s: string)
    ensures |s| >= 1 && IsDigits(s)
    ensures n == 0 <==> s == "0"
    decreases n
  {
    if n < 10 then ['0' + n as char]
    else Decimal(n / 10) + ['0' + (n % 10) as char]
  }

  /** `Decimal` writes `n` itself: its digits read back as `n`, and only 0
      is written with a leading zero. */
  lemma {:induction false} DecimalValue(n: nat)
    ensures DigitsValue(Decimal(n)) == n
    ensures |Decimal(n)| > 1 ==> Decimal(n)[0] != '0'
    decreases n
  {
    var s := Decimal(n);
    if n < 10 {
      assert s[..0] == [];
    } else {
      var prefix := Decimal(n / 10);
      DecimalValue(n / 10);
      assert s == prefix + ['0' + (n % 10) as char];
      assert s[..|s| - 1] == prefix;
      assert s[|s| - 1] as int - '0' as int == n % 10;
      assert s[0] == prefix[0];
    }
  }

  /** What a picker hands back: nothing, an error, or one asset with its file
      name (empty when the picker gives none) and URI. */
  datatype PickResult = Canceled | PickFailed | Picked(fileName: string, uri: string)

  /** The tabs served by the image library; the others use the document picker. */
  predicate IsMediaTab(tab: string)
  {
    tab == "imagem" || tab == "video"
  }

  /** The name stored for a pick: a media asset without a file name is called
      `midia_<Date.now()>`; a document keeps its own name. */
  function PickedName(tab: string, fileName: string, now: nat): (name: string)
    ensures !IsMediaTab(tab) || fileName != "" ==> name == fileName
    ensures IsMediaTab(tab) && fileName == "" ==> name == "midia_" + Decimal(now)
    ensures IsMediaTab(tab) ==> name != ""
  {
    if IsMediaTab(tab) && fileName == "" then "midia_" + Decimal(now) else fileName
  }

  datatype FinalizeOutcome = Refused(reason: AdError) | SaveFailed | Saved(id: nat)

  class CreateAdScreen {
    var uploadedFiles: Uploads
    var currentUploadType: string
    var activeTab: string
    var modalVisible: bool

    constructor()
      ensures uploadedFiles == map[] && currentUploadType == ""
      ensures activeTab == "imagem" && !modalVisible
    {
      uploadedFiles := map[];
      currentUploadType := "";
      activeTab := "imagem";
      modalVisible := false;
    }

    /** `openUploadModal`: remember the slot, start on the image tab, show
        the modal. */
    method OpenUploadModal(slot: string)
      modifies this
      ensures currentUploadType == slot && activeTab == "imagem" && modalVisible
      ensures uploadedFiles == old(uploadedFiles)
    {
      currentUploadType := slot;
      activeTab := "imagem";
      modalVisible := true;
    }

    /** A tab of the modal pressed. */
    method SelectTab(tab: string)
      modifies this`activeTab
      ensures activeTab == tab
    {
      activeTab := tab;
    }

    /** `handlePickFile`: a pick fills the current slot with the file and
        closes the modal; no other slot changes. A cancelled or failed pick
        changes nothing. `now` is `Date.now()`. */
    method HandlePickFile(pick: PickResult, now: nat)
      modifies this`uploadedFiles, this`modalVisible
      ensures pick.Picked? ==>
        && uploadedFiles == old(uploadedFiles)[currentUploadType :=
             UploadedFile(PickedName(activeTab, pick.fileName, now), activeTab, pick.uri)]
        && !modalVisible
      ensures pick.Picked? ==>
        forall slot :: slot != currentUploadType ==>
          (slot in uploadedFiles <==> slot in old(uploadedFiles)) &&
          (slot in uploadedFiles ==> uploadedFiles[slot] == old(uploadedFiles)[slot])
      ensures !pick.Picked? ==>
        uploadedFiles == old(uploadedFiles) && modalVisible == old(modalVisible)
    {
      if pick.Picked? {
        var file := UploadedFile(PickedName(activeTab, pick.fileName, now), activeTab, pick.uri);
        uploadedFiles := uploadedFiles[currentUploadType := file];
        modalVisible := false;
      }
    }

    /** `handleFinalizar`: nothing is stored unless every check passes; then
        exactly one ad, built from the form and the uploads, is stored for
        the session's user. */
    method HandleFinalizar(db: Store, session: SessionStorage, form: AdForm)
      returns (outcome: FinalizeOutcome)
      requires db.Valid()
      modifies db`anuncios, db`nextAnuncioId, db`clock
      ensures db.Valid()
      ensures old(ValidateAndBuild(form, uploadedFiles, session.currentUser)).Failure? ==>
        && outcome == Refused(old(ValidateAndBuild(form, uploadedFiles, session.currentUser)).error)
        && unchanged(db)
      ensures old(ValidateAndBuild(form, uploadedFiles, session.currentUser)).Success? ==>
        var ad := old(ValidateAndBuild(form, uploadedFiles, session.currentUser)).value;
        if AnunciosTable in old(db.schema) then
          && outcome == Saved(old(db.nextAnuncioId))
          && db.nextAnuncioId == old(db.nextAnuncioId) + 1 && db.clock == old(db.clock) + 1
          && db.anuncios == old(db.anuncios) + [AnuncioRow(old(db.nextAnuncioId), ad.userEmail,
               ad.titulo, ad.descricao, ad.tipoProduto, ad.capa, ad.arquivoUrl, ad.demoLink,
               Pendente, 0, old(db.clock))]
        else
          outcome == SaveFailed && unchanged(db)
    {
      var checked := ValidateAndBuild(form, uploadedFiles, session.currentUser);
      if checked.Failure? {
        return Refused(checked.error);
      }
      var saved := db.CreateAnuncio(checked.value);
      if saved.Success? {
        outcome := Saved(saved.value);
      } else {
        outcome := SaveFailed;
      }
    }
  }
}
