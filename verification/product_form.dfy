/**
 * The submit handler of the new-product page
 * (src/pages/admin/products/new.tsx). The catalogue calls are given by how
 * they settle; each selected image is represented by the outcome of its
 * upload.
 */
module ProductForm {
  import opened Options

  /** The fields the handler reads; numeric fields are left out. */
  datatype Product = Product(name: string, slug: string, categoryIds: seq<string>)

  /** How a catalogue call settled. */
  datatype Settled<T> = Ok(value: T) | Failed

  /** A call the handler makes, in order of issue. */
  datatype Call =
    | CreateProduct(product: Product)          // images: [] at creation
    | UploadImage(index: nat, productId: string)
    | UpdateImages(productId: string, urls: seq<string>)
    | PushProducts                             // router.push("/admin/products")

  const NoCategoryText: string := "Please select at least one category for this product."
  const CreateFailedText: string := "Failed to create product"

  /** What a submit leaves behind: the error shown, the loading flag, and the calls made. */
  datatype Submitted = Submitted(error: Option<string>, loading: bool, calls: seq<Call>)

  /** True when every upload succeeded. */
  predicate AllUploaded(uploads: seq<Settled<string>>) {
    forall k :: 0 <= k < |uploads| ==> uploads[k].Ok?
  }

  /** The URLs of successful uploads, in file order. */
  function Urls(uploads: seq<Settled<string>>): (urls: seq<string>)
    requires AllUploaded(uploads)
    ensures |urls| == |uploads|
    ensures forall k :: 0 <= k < |uploads| ==> urls[k] == uploads[k].value
  {
    seq(|uploads|, k requires 0 <= k < |uploads| => uploads[k].value)
  }

  /** One upload call per selected file, all issued before any is awaited. */
  function UploadCalls(n: nat, productId: string): (calls: seq<Call>)
    ensures |calls| == n
    ensures forall k :: 0 <= k < n ==> calls[k] == UploadImage(k, productId)
  {
    seq(n, k requires 0 <= k < n => UploadImage(k, productId))
  }

  /**
   * `handleSubmit`. No category: an error and no call. Otherwise the product
   * is created without images, every file is uploaded, the product is
   * updated with the URLs only when there is at least one, and the page
   * moves to the product list. Any failure shows one fixed text. The
   * loading flag is false on every path.
   */
  function HandleSubmit(p: Product, create: Settled<string>, uploads: seq<Settled<string>>,
                        update: Settled<()>): (r: Submitted)
    ensures !r.loading
    ensures p.categoryIds == [] ==> r == Submitted(Some(NoCategoryText), false, [])
    ensures p.categoryIds != [] ==> |r.calls| >= 1 && r.calls[0] == CreateProduct(p)
    ensures r.error.None? <==>
              p.categoryIds != [] && create.Ok? && AllUploaded(uploads) && (uploads == [] || update.Ok?)
    ensures r.error.Some? ==> r.error.value in {NoCategoryText, CreateFailedText}
    ensures PushProducts in r.calls <==> r.error.None?
    ensures (exists id, urls :: UpdateImages(id, urls) in r.calls) <==>
              p.categoryIds != [] && create.Ok? && AllUploaded(uploads) && uploads != []
  {
    if p.categoryIds == [] then Submitted(Some(NoCategoryText), false, [])
    else
      var created := [CreateProduct(p)];
      match create
      case Failed => Submitted(Some(CreateFailedText), false, created)
      case Ok(id) =>
        var issued := created + UploadCalls(|uploads|, id);
        if !AllUploaded(uploads) then Submitted(Some(CreateFailedText), false, issued)
        else if |uploads| == 0 then Submitted(None, false, issued + [PushProducts])
        else
          var updated := issued + [UpdateImages(id, Urls(uploads))];
          match update
          case Failed => Submitted(Some(CreateFailedText), false, updated)
          case Ok(_) => Submitted(None, false, updated + [PushProducts])
  }

  /**
   * The update carries exactly the uploaded URLs, one per file in file
   * order, for the id the creation returned.
   */
  lemma UpdateCarriesUploadedUrls(p: Product, id: string, uploads: seq<Settled<string>>, update: Settled<()>)
    requires p.categoryIds != [] && AllUploaded(uploads) && uploads != []
    ensures UpdateImages(id, Urls(uploads)) in HandleSubmit(p, Ok(id), uploads, update).calls
    ensures forall k :: 0 <= k < |uploads| ==> UploadImage(k, id) in HandleSubmit(p, Ok(id), uploads, update).calls
  {
    var r := HandleSubmit(p, Ok(id), uploads, update);
    var issued := [CreateProduct(p)] + UploadCalls(|uploads|, id);
    assert r.calls[|issued|] == UpdateImages(id, Urls(uploads));
    forall k | 0 <= k < |uploads|
      ensures UploadImage(k, id) in r.calls
    {
      assert r.calls[1 + k] == UploadImage(k, id);
    }
  }

  /** Unlike the category page, the product page does not fill an empty slug at submit: the product is created as typed. */
  lemma EmptySlugIsKept(p: Product, create: Settled<string>, uploads: seq<Settled<string>>, update: Settled<()>)
    requires p.categoryIds != [] && p.slug == ""
    ensures HandleSubmit(p, create, uploads, update).calls[0].product.slug == ""
  {
  }
}
