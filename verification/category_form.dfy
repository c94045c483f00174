/**
 * The new-category page (src/pages/admin/categories/new.tsx): the form as
 * a map from field name to text, the change handler that writes one field,
 * and the submit handler with its slug fallback. The storage upload and the
 * catalogue call are given by how they settled.
 */
module CategoryForm {
  import opened Options
  import opened Strings
  import opened Slug

  type FormData = map<string, string>

  const NameField: string := "name"
  const DescriptionField: string := "description"
  const SlugField: string := "slug"
  const ParentField: string := "parentId"

  /** The form as first rendered: four empty fields. */
  const Initial: FormData := map[NameField := "", DescriptionField := "", SlugField := "", ParentField := ""]

  /** The four fields the page declares are present. */
  predicate HasFields(f: FormData) {
    NameField in f && DescriptionField in f && SlugField in f && ParentField in f
  }

  /**
   * `handleInputChange`: the input's `name` attribute picks the field, so
   * any name writes a field, adding one if it was not there.
   */
  function HandleInputChange(f: FormData, name: string, value: string): (r: FormData)
    ensures r.Keys == f.Keys + {name}
    ensures r[name] == value
    ensures forall k :: k in f && k != name ==> r[k] == f[k]
  {
    f[name := value]
  }

  /** The declared fields survive every change. */
  lemma ChangesKeepFields(f: FormData, name: string, value: string)
    requires HasFields(f)
    ensures HasFields(HandleInputChange(f, name, value))
  {
  }

  /** The first rendered form has the declared fields. */
  lemma InitialHasFields()
    ensures HasFields(Initial)
  {
  }

  /** `handleNameBlur` on the form: the slug field is filled from the name when empty. */
  function HandleNameBlur(f: FormData): (r: FormData)
    requires HasFields(f)
    ensures HasFields(r) && r.Keys == f.Keys
    ensures forall k :: k in f && k != SlugField ==> r[k] == f[k]
    ensures r[SlugField] == SlugOnBlur(f[NameField], f[SlugField])
  {
    f[SlugField := SlugOnBlur(f[NameField], f[SlugField])]
  }

  /** The slug sent at submit: the typed slug when non-empty, else one generated from the name. */
  function SubmittedSlug(f: FormData): (slug: string)
    requires HasFields(f)
    ensures f[SlugField] != "" ==> slug == f[SlugField]
    ensures f[SlugField] == "" ==> slug == GenerateSlug(f[NameField])
  {
    if f[SlugField] != "" then f[SlugField] else GenerateSlug(f[NameField])
  }

  /**
   * The submitted slug is never empty when the user typed one or the name
   * holds a letter, digit or underscore; and submitting after a blur sends
   * what the blur put in the field.
   */
  lemma SubmittedSlugFacts(f: FormData)
    requires HasFields(f)
    ensures f[SlugField] != "" || WordChars(ToLower(f[NameField])) != [] ==> SubmittedSlug(f) != ""
    ensures f[NameField] != "" ==> SubmittedSlug(HandleNameBlur(f)) == SubmittedSlug(f)
  {
    if f[SlugField] == "" && WordChars(ToLower(f[NameField])) != [] {
      SlugContent(f[NameField]);
    }
    if f[NameField] != "" && f[SlugField] == "" {
      var g := HandleNameBlur(f);
      if GenerateSlug(f[NameField]) == "" {
        assert g[SlugField] == "";
        assert g[NameField] == f[NameField];
      }
    }
  }

  /** How an awaited call settled. */
  datatype Settled<T> = Ok(value: T) | Failed

  /** A call the handler makes, in order of issue. */
  datatype Call =
    | UploadImage                                             // uploadBytes, then getDownloadURL
    | CreateCategory(fields: FormData, imageUrl: Option<string>)
    | PushCategories                                          // router.push("/admin/categories")

  const CreateFailedText: string := "Failed to create category"

  /** What a submit leaves behind. */
  datatype Submitted = Submitted(error: Option<string>, loading: bool, calls: seq<Call>)

  /**
   * `handleSubmit`. The image, when one is selected, is uploaded first; the
   * category is then created with every form field, the image URL if any,
   * and the submitted slug. Any failure shows one fixed text and stops; the
   * loading flag is false on every path.
   */
  function HandleSubmit(f: FormData, hasFile: bool, upload: Settled<string>, create: Settled<()>): (r: Submitted)
    requires HasFields(f)
    ensures !r.loading
    ensures r.error.None? <==> (!hasFile || upload.Ok?) && create.Ok?
    ensures r.error.Some? ==> r.error == Some(CreateFailedText)
    ensures UploadImage in r.calls <==> hasFile
    ensures PushCategories in r.calls <==> r.error.None?
    ensures forall c :: c in r.calls && c.CreateCategory? ==>
              && c.fields == f[SlugField := SubmittedSlug(f)]
              && c.imageUrl == (if hasFile && upload.Ok? then Some(upload.value) else None)
  {
    var uploaded := if hasFile then [UploadImage] else [];
    if hasFile && upload.Failed? then Submitted(Some(CreateFailedText), false, uploaded)
    else
      var url := if hasFile then Some(upload.value) else None;
      var issued := uploaded + [CreateCategory(f[SlugField := SubmittedSlug(f)], url)];
      match create
      case Failed => Submitted(Some(CreateFailedText), false, issued)
      case Ok(_) => Submitted(None, false, issued + [PushCategories])
  }

  /** The category is created whenever the upload did not fail, with every field the form holds. */
  lemma CreationSendsAllFields(f: FormData, hasFile: bool, upload: Settled<string>, create: Settled<()>)
    requires HasFields(f) && (!hasFile || upload.Ok?)
    ensures exists c :: c in HandleSubmit(f, hasFile, upload, create).calls && c.CreateCategory?
    ensures forall c :: c in HandleSubmit(f, hasFile, upload, create).calls && c.CreateCategory? ==>
              c.fields.Keys == f.Keys && forall k :: k in f && k != SlugField ==> c.fields[k] == f[k]
  {
    var r := HandleSubmit(f, hasFile, upload, create);
    var uploaded := if hasFile then [UploadImage] else [];
    assert r.calls[|uploaded|].CreateCategory?;
  }
}
