/** The create/edit form: loading a record into it, the feature-list and
    image edits, and the submit pipeline (validate, write, upload, patch). */
module PropertyForm {
  import opened Wrappers
  import opened Text
  import opened Seqs
  import opened Records

  const LoadError := "Error loading property. Please try again."
  const RequiredError := "Please fill in all required fields"
  const SaveError := "Error saving property. Please try again."

  /** The form's fields. `imagenes` holds the images the record already has. */
  datatype FormData = FormData(
    ubicacion: string,
    precio: PriceInput,
    caracteristicas: seq<string>,
    disponible: bool,
    imagenes: seq<string>)

  /** The whole form: the route's id (present when editing), the fields,
      the staged files, the preview URLs shown, and the error banner. */
  datatype FormState = FormState(
    routeId: Option<string>,
    data: FormData,
    files: seq<ImageFile>,
    previews: seq<string>,
    error: Option<string>)

  const InitialData := FormData("", Typed(""), [""], true, [])

  function InitialForm(routeId: Option<string>): FormState {
    FormState(routeId, InitialData, [], [], None)
  }

  predicate IsEditing(st: FormState) {
    st.routeId.Some?
  }

  // ------------------------------------------------------------------ load

  /** `fetchProperty` (edit mode only): on success the fields take the
      record's values, an empty feature list becomes one empty field, a
      missing image list becomes empty, and the previews show the record's
      images; on failure only the error banner changes. */
  function LoadForm(st: FormState, reply: Reply<Property>): (e: Effect<FormState>)
    requires IsEditing(st)
    ensures e.calls == [GetProperty(st.routeId.value)]
    ensures reply.Failed? ==> e.state == st.(error := Some(LoadError))
    ensures reply.Ok? ==>
      var p := reply.value;
      && e.state.routeId == st.routeId && e.state.files == st.files && e.state.error == None
      && e.state.data.ubicacion == p.ubicacion
      && e.state.data.precio == Loaded(p.precio)
      && e.state.data.disponible == p.disponible
      && (|p.caracteristicas| > 0 ==> e.state.data.caracteristicas == p.caracteristicas)
      && (|p.caracteristicas| == 0 ==> e.state.data.caracteristicas == [""])
      && (p.imagenes.Some? ==> e.state.data.imagenes == p.imagenes.value)
      && (p.imagenes.None? ==> e.state.data.imagenes == [])
      && e.state.previews == e.state.data.imagenes
  {
    var call := [GetProperty(st.routeId.value)];
    match reply
    case Failed => Effect(st.(error := Some(LoadError)), call)
    case Ok(p) =>
      var imgs := p.imagenes.GetOr([]);
      var features := if |p.caracteristicas| > 0 then p.caracteristicas else [""];
      var data := FormData(p.ubicacion, Loaded(p.precio), features, p.disponible, imgs);
      Effect(st.(data := data, previews := imgs, error := None), call)
  }

  // -------------------------------------------------------------- features

  /** `handleFeatureChange(i, v)`: field `i` becomes `v`; nothing else changes.
      The view only passes indices of rendered fields. */
  function ChangeFeature(st: FormState, i: int, v: string): (r: FormState)
    requires 0 <= i < |st.data.caracteristicas|
    ensures |r.data.caracteristicas| == |st.data.caracteristicas|
    ensures r.data.caracteristicas[i] == v
    ensures forall k :: 0 <= k < |st.data.caracteristicas| && k != i ==>
      r.data.caracteristicas[k] == st.data.caracteristicas[k]
    ensures r == st.(data := r.data) && r.data == st.data.(caracteristicas := r.data.caracteristicas)
  {
    st.(data := st.data.(caracteristicas := st.data.caracteristicas[i := v]))
  }

  /** Writing back a field's previous value restores the form. */
  lemma ChangeFeatureRestores(st: FormState, i: int, v: string)
    requires 0 <= i < |st.data.caracteristicas|
    ensures ChangeFeature(ChangeFeature(st, i, v), i, st.data.caracteristicas[i]) == st
  {
    var fs := ChangeFeature(ChangeFeature(st, i, v), i, st.data.caracteristicas[i]).data.caracteristicas;
    assert fs == st.data.caracteristicas;
  }

  /** `addFeatureField`: one empty field after the existing ones. */
  function AddFeature(st: FormState): (r: FormState)
    ensures |r.data.caracteristicas| == |st.data.caracteristicas| + 1
    ensures r.data.caracteristicas[..|st.data.caracteristicas|] == st.data.caracteristicas
    ensures r.data.caracteristicas[|st.data.caracteristicas|] == ""
    ensures r == st.(data := st.data.(caracteristicas := r.data.caracteristicas))
  {
    st.(data := st.data.(caracteristicas := st.data.caracteristicas + [""]))
  }

  /** `removeFeatureField(i)`: field `i` is dropped and the rest keep their
      order; an index outside the list removes nothing. */
  function RemoveFeature(st: FormState, i: int): (r: FormState)
    ensures 0 <= i < |st.data.caracteristicas| ==>
      |r.data.caracteristicas| == |st.data.caracteristicas| - 1
    ensures !(0 <= i < |st.data.caracteristicas|) ==> r == st
    ensures forall k :: 0 <= k < i && k < |r.data.caracteristicas| ==>
      r.data.caracteristicas[k] == st.data.caracteristicas[k]
    ensures forall k :: 0 <= i <= k < |r.data.caracteristicas| ==>
      r.data.caracteristicas[k] == st.data.caracteristicas[k + 1]
    ensures r == st.(data := st.data.(caracteristicas := r.data.caracteristicas))
  {
    st.(data := st.data.(caracteristicas := RemoveAt(st.data.caracteristicas, i)))
  }

  /** Removing the field just added restores the form. */
  lemma AddThenRemoveFeature(st: FormState)
    ensures RemoveFeature(AddFeature(st), |st.data.caracteristicas|) == st
  {
    RemoveLastAppended(st.data.caracteristicas, "");
  }

  // ---------------------------------------------------------------- images

  /** `handleImageChange`: choosing no files changes nothing; otherwise the
      files are staged after the earlier ones and their preview URLs (one
      per file, minted by the browser) shown after the earlier previews. */
  function AddImages(st: FormState, chosen: seq<ImageFile>, urls: seq<string>): (r: FormState)
    requires |urls| == |chosen|
    ensures |chosen| == 0 ==> r == st
    ensures r.files == st.files + chosen
    ensures r.previews == st.previews + urls
    ensures r == st.(files := r.files, previews := r.previews)
  {
    if |chosen| == 0 then st else st.(files := st.files + chosen, previews := st.previews + urls)
  }

  /** `removeImage(i)` as the handler has it: index `i` is dropped from the
      existing images, the previews and the staged files independently, so
      each list shrinks by one exactly when it has an index `i`. */
  function RemoveImage(st: FormState, i: int): (r: FormState)
    ensures r.data.imagenes == RemoveAt(st.data.imagenes, i)
    ensures r.previews == RemoveAt(st.previews, i)
    ensures r.files == RemoveAt(st.files, i)
    ensures |r.data.imagenes| == if 0 <= i < |st.data.imagenes| then |st.data.imagenes| - 1 else |st.data.imagenes|
    ensures |r.previews| == if 0 <= i < |st.previews| then |st.previews| - 1 else |st.previews|
    ensures |r.files| == if 0 <= i < |st.files| then |st.files| - 1 else |st.files|
    ensures r == st.(data := st.data.(imagenes := r.data.imagenes), previews := r.previews, files := r.files)
  {
    st.(data := st.data.(imagenes := RemoveAt(st.data.imagenes, i)),
        previews := RemoveAt(st.previews, i),
        files := RemoveAt(st.files, i))
  }

  /** The preview strip shows the existing images first, then one preview
      per staged file: preview `k` belongs to existing image `k` when
      `k < |imagenes|` and to staged file `k - |imagenes|` otherwise. */
  predicate Aligned(st: FormState) {
    && |st.previews| == |st.data.imagenes| + |st.files|
    && st.previews[..|st.data.imagenes|] == st.data.imagenes
  }

  /** `removeImage` can break the pairing: with one existing image and one
      staged file, removing the staged file's preview (index 1) leaves the
      file staged, and the next submit still uploads it. */
  lemma RemoveImageMisaligns()
    ensures var st := FormState(Some("p1"), FormData("Centro", Typed("100"), [""], true, ["a"]),
                                [ImageFile("f.jpg")], ["a", "blob:f"], None);
            && Aligned(st)
            && RemoveImage(st, 1).previews == ["a"]
            && RemoveImage(st, 1).files == [ImageFile("f.jpg")]
            && !Aligned(RemoveImage(st, 1))
            && UploadImages("p1", [ImageFile("f.jpg")]) in
                 Submit(RemoveImage(st, 1), Ok("p1"), Ok(["i2"]), Ok(())).calls
  {
    var st := FormState(Some("p1"), FormData("Centro", Typed("100"), [""], true, ["a"]),
                        [ImageFile("f.jpg")], ["a", "blob:f"], None);
    var r := RemoveImage(st, 1);
    assert r.data.imagenes == ["a"];
    assert r.previews == ["a"];
    assert r.files == [ImageFile("f.jpg")];
    assert RequiredFilled(r.data) && IsEditing(r) && |r.files| == 1;
    var o := Submit(r, Ok("p1"), Ok(["i2"]), Ok(()));
    assert o.calls[1] == UploadImages(TargetId(r, Ok("p1")), r.files);
  }

  /** `removeImage` with the index read against the preview strip: preview
      `i` and the one item it shows are removed together, so the pairing of
      previews with images and files is kept. */
  function RemoveImageAligned(st: FormState, i: int): (r: FormState)
    requires Aligned(st)
    ensures Aligned(r)
    ensures r.previews == RemoveAt(st.previews, i)
    ensures 0 <= i < |st.data.imagenes| ==>
      r.data.imagenes == RemoveAt(st.data.imagenes, i) && r.files == st.files
    ensures !(0 <= i < |st.data.imagenes|) ==>
      r.data.imagenes == st.data.imagenes && r.files == RemoveAt(st.files, i - |st.data.imagenes|)
    ensures r == st.(data := st.data.(imagenes := r.data.imagenes), previews := r.previews, files := r.files)
  {
    var n := |st.data.imagenes|;
    var previews := RemoveAt(st.previews, i);
    if 0 <= i < n then
      var imgs := RemoveAt(st.data.imagenes, i);
      assert previews[..|imgs|] == imgs;
      st.(data := st.data.(imagenes := imgs), previews := previews)
    else
      assert previews[..n] == st.previews[..n];
      st.(files := RemoveAt(st.files, i - n), previews := previews)
  }

  /** Removing the preview of a file just chosen unstages that file and
      restores the form. */
  lemma AddThenRemoveImage(st: FormState, f: ImageFile, url: string)
    requires Aligned(st)
    ensures Aligned(AddImages(st, [f], [url]))
    ensures RemoveImageAligned(AddImages(st, [f], [url]), |st.previews|) == st
  {
    var r := AddImages(st, [f], [url]);
    assert r.previews[..|st.data.imagenes|] == st.previews[..|st.data.imagenes|];
    RemoveLastAppended(st.previews, url);
    RemoveLastAppended(st.files, f);
    assert |st.previews| - |st.data.imagenes| == |st.files|;
  }

  /** The pairing holds from the start and is kept by every edit: loading
      a record before any file is staged, choosing files, removing an image
      through the corrected handler, and the feature edits. */
  lemma AlignedInvariant(st: FormState, reply: Reply<Property>, chosen: seq<ImageFile>,
                         urls: seq<string>, i: int)
    requires Aligned(st)
    requires |urls| == |chosen|
    ensures Aligned(InitialForm(st.routeId))
    ensures IsEditing(st) && st.files == [] ==> Aligned(LoadForm(st, reply).state)
    ensures Aligned(AddImages(st, chosen, urls))
    ensures Aligned(RemoveImageAligned(st, i))
    ensures Aligned(AddFeature(st)) && Aligned(RemoveFeature(st, i))
  {
    var r := AddImages(st, chosen, urls);
    assert r.previews[..|st.data.imagenes|] == st.previews[..|st.data.imagenes|];
  }

  // ---------------------------------------------------------------- submit

  /** `!formData.precio`: an empty text or a loaded price of 0 counts as missing. */
  predicate PriceFilled(p: PriceInput) {
    match p
    case Typed(text) => text != ""
    case Loaded(amount) => amount != 0
  }

  /** The two required fields are filled: the location is not empty and
      the price is neither an empty text nor a loaded 0, the two values
      JavaScript treats as false. A fresh form is not filled. */
  predicate RequiredFilled(d: FormData)
    ensures RequiredFilled(d) <==> d.ubicacion != "" && d.precio !in {Typed(""), Loaded(0)}
    ensures d == InitialData ==> !RequiredFilled(d)
    ensures d.precio in {Typed(""), Loaded(0)} ==> !RequiredFilled(d)
    ensures d.ubicacion != "" && d.precio.Typed? && d.precio.text != "" ==> RequiredFilled(d)
  {
    d.ubicacion != "" && PriceFilled(d.precio)
  }

  predicate NonBlank(f: string) {
    Trim(f) != ""
  }

  /** The features sent: the fields that are not blank after trimming. */
  function SubmittedFeatures(fs: seq<string>): seq<string> {
    Filter(NonBlank, fs)
  }

  /** Exactly the non-blank fields are sent, in their order. */
  lemma SubmittedFeaturesMeaning(fs: seq<string>)
    ensures IsSubsequence(SubmittedFeatures(fs), fs)
    ensures forall k :: 0 <= k < |SubmittedFeatures(fs)| ==> !IsBlank(SubmittedFeatures(fs)[k])
    ensures forall k :: 0 <= k < |fs| && !IsBlank(fs[k]) ==> fs[k] in SubmittedFeatures(fs)
    ensures forall x :: multiset(SubmittedFeatures(fs))[x] == if IsBlank(x) then 0 else multiset(fs)[x]
  {
    FilterIsSubsequence(NonBlank, fs);
    FilterMultiset(NonBlank, fs);
  }

  /** The body sent by the create or update: the form's fields, with the
      features reduced to the non-blank ones, every copy kept, in order. */
  function PayloadOf(d: FormData): (r: Payload)
    ensures r.ubicacion == d.ubicacion && r.precio == d.precio
    ensures r.disponible == d.disponible && r.imagenes == d.imagenes
    ensures IsSubsequence(r.caracteristicas, d.caracteristicas)
    ensures forall k :: 0 <= k < |r.caracteristicas| ==> !IsBlank(r.caracteristicas[k])
    ensures forall x :: multiset(r.caracteristicas)[x] ==
                        (if IsBlank(x) then 0 else multiset(d.caracteristicas)[x])
  {
    SubmittedFeaturesMeaning(d.caracteristicas);
    Payload(d.ubicacion, d.precio, SubmittedFeatures(d.caracteristicas), d.disponible, d.imagenes)
  }

  /** `uploadImages(id)`: with no staged files it answers an empty list
      without a request; otherwise one upload, whose reply it returns. */
  function Upload(id: string, files: seq<ImageFile>, reply: Reply<seq<string>>): (e: Effect<Reply<seq<string>>>)
    ensures |files| == 0 ==> e.calls == [] && e.state == Ok([])
    ensures |files| > 0 ==> e.calls == [UploadImages(id, files)] && e.state == reply
  {
    if |files| == 0 then Effect(Ok([]), []) else Effect(reply, [UploadImages(id, files)])
  }

  /** What a submit leaves: the form, the requests issued in order, and
      whether the view navigated back to the list. */
  datatype SubmitOutcome = SubmitOutcome(form: FormState, calls: seq<Request>, navigated: bool)

  /** The property the upload and patch address: the route's id when
      editing, the id the create answered with otherwise. */
  function TargetId(st: FormState, writeReply: Reply<string>): string
    requires IsEditing(st) || writeReply.Ok?
  {
    if IsEditing(st) then st.routeId.value else writeReply.value
  }

  /** `handleSubmit`, with the replies the store would give to the write
      (POST answers the new id), the upload and the patch. */
  function Submit(st: FormState, writeReply: Reply<string>, uploadReply: Reply<seq<string>>,
                  patchReply: Reply<()>): (o: SubmitOutcome)
    // the form's fields, files and previews are never changed by a submit
    ensures o.form == st.(error := o.form.error)
    ensures o.navigated <==> o.form.error == None
    // missing required fields: an error and no request at all
    ensures !RequiredFilled(st.data) ==> o.calls == [] && o.form.error == Some(RequiredError) && !o.navigated
    // the write comes first: a create, or an update of the route's record
    ensures RequiredFilled(st.data) ==>
      && |o.calls| >= 1
      && o.calls[0] == (if IsEditing(st) then UpdateProperty(st.routeId.value, PayloadOf(st.data))
                        else CreateProperty(PayloadOf(st.data)))
    ensures RequiredFilled(st.data) && writeReply.Failed? ==>
      |o.calls| == 1 && o.form.error == Some(SaveError)
    // nothing staged: the write alone, then back to the list
    ensures RequiredFilled(st.data) && writeReply.Ok? && |st.files| == 0 ==>
      |o.calls| == 1 && o.navigated
    // files staged: upload, then patch the images to the existing ones followed by the uploaded ones
    ensures RequiredFilled(st.data) && writeReply.Ok? && |st.files| > 0 ==>
      && |o.calls| >= 2
      && o.calls[1] == UploadImages(TargetId(st, writeReply), st.files)
    ensures RequiredFilled(st.data) && writeReply.Ok? && |st.files| > 0 && uploadReply.Failed? ==>
      |o.calls| == 2 && o.form.error == Some(SaveError)
    ensures RequiredFilled(st.data) && writeReply.Ok? && |st.files| > 0 && uploadReply.Ok? ==>
      && |o.calls| == 3
      && o.calls[2] == PatchImages(TargetId(st, writeReply), st.data.imagenes + uploadReply.value)
      && o.navigated == patchReply.Ok?
      && (patchReply.Failed? ==> o.form.error == Some(SaveError))
  {
    if !RequiredFilled(st.data) then
      SubmitOutcome(st.(error := Some(RequiredError)), [], false)
    else
      var payload := PayloadOf(st.data);
      var write := if IsEditing(st) then UpdateProperty(st.routeId.value, payload) else CreateProperty(payload);
      match writeReply
      case Failed => SubmitOutcome(st.(error := Some(SaveError)), [write], false)
      case Ok(_) =>
        var id := TargetId(st, writeReply);
        if |st.files| == 0 then
          SubmitOutcome(st.(error := None), [write], true)
        else
          var up := Upload(id, st.files, uploadReply);
          match up.state
          case Failed => SubmitOutcome(st.(error := Some(SaveError)), [write] + up.calls, false)
          case Ok(uploaded) =>
            var calls := [write] + up.calls + [PatchImages(id, st.data.imagenes + uploaded)];
            match patchReply
            case Failed => SubmitOutcome(st.(error := Some(SaveError)), calls, false)
            case Ok(_) => SubmitOutcome(st.(error := None), calls, true)
  }

  /** Every request after the write addresses one property: the record
      being edited, or the one the create just made. */
  lemma SubmitAddressesTarget(st: FormState, writeReply: Reply<string>, uploadReply: Reply<seq<string>>,
                              patchReply: Reply<()>)
    ensures var o := Submit(st, writeReply, uploadReply, patchReply);
      forall k :: 1 <= k < |o.calls| ==>
        && (IsEditing(st) || writeReply.Ok?)
        && (o.calls[k].UploadImages? || o.calls[k].PatchImages?)
        && o.calls[k].id == TargetId(st, writeReply)
  {
    var o := Submit(st, writeReply, uploadReply, patchReply);
    if !RequiredFilled(st.data) {
      assert o.calls == [];
    } else if writeReply.Failed? || |st.files| == 0 {
      assert |o.calls| == 1;
    } else {
      var id := TargetId(st, writeReply);
      assert o.calls[1] == UploadImages(id, st.files);
      assert uploadReply.Ok? ==> o.calls[2] == PatchImages(id, st.data.imagenes + uploadReply.value);
      assert |o.calls| == if uploadReply.Ok? then 3 else 2;
      forall k | 1 <= k < |o.calls|
        ensures (o.calls[k].UploadImages? || o.calls[k].PatchImages?) && o.calls[k].id == id
      {
        assert k == 1 || k == 2;
      }
    }
  }

  /** Failure of any step ends the submit on one save error, without going
      back to the list; a failing write issues nothing further. */
  lemma SubmitFailureStops(st: FormState, uploadReply: Reply<seq<string>>, patchReply: Reply<()>)
    requires RequiredFilled(st.data)
    ensures var o := Submit(st, Failed, uploadReply, patchReply);
      |o.calls| == 1 && o.form.error == Some(SaveError) && !o.navigated
  {
  }

  /** A submit with an empty location or an empty price is refused before
      any request: the required-fields error, no create or update, and no
      navigation. */
  lemma SubmitNeedsLocationAndPrice(st: FormState, writeReply: Reply<string>,
                                    uploadReply: Reply<seq<string>>, patchReply: Reply<()>)
    requires st.data.ubicacion == "" || st.data.precio in {Typed(""), Loaded(0)}
    ensures var o := Submit(st, writeReply, uploadReply, patchReply);
      o.calls == [] && o.form.error == Some(RequiredError) && !o.navigated
  {
  }

  /** A submit sends the payload's features with every blank field removed. */
  lemma SubmitSendsNonBlankFeatures(st: FormState, writeReply: Reply<string>,
                                    uploadReply: Reply<seq<string>>, patchReply: Reply<()>)
    requires RequiredFilled(st.data)
    ensures var o := Submit(st, writeReply, uploadReply, patchReply);
      var sent := o.calls[0].payload.caracteristicas;
      && IsSubsequence(sent, st.data.caracteristicas)
      && (forall k :: 0 <= k < |sent| ==> !IsBlank(sent[k]))
      && (forall k :: 0 <= k < |st.data.caracteristicas| && !IsBlank(st.data.caracteristicas[k]) ==>
            st.data.caracteristicas[k] in sent)
      && (forall x :: multiset(sent)[x] == if IsBlank(x) then 0 else multiset(st.data.caracteristicas)[x])
  {
    SubmittedFeaturesMeaning(st.data.caracteristicas);
  }
}
