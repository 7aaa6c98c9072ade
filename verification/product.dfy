/** The admin product pages of src/apps/controllers/web/product.js: the image path
    normaliser, the stock and featured flags of the create and edit forms, and the page
    navigation of the product list. */
module ProductAdmin {
  import opened Js
  import opened UploadPaths
  import Pagination

  const PRODUCT_SUBFOLDER: string := "products"
  const PUBLIC_UPLOAD: string := "/public/upload"

  // ----- Image paths -----

  /** `v.replace(/^\/public\/upload/i, '/upload')`: the prefix is matched ignoring ASCII
      case, with no slash required after it. */
  function ReplacePublicUpload(v: string): string {
    if |v| >= 14 && Lower(v[..14]) == PUBLIC_UPLOAD then "/upload" + v[14..] else v
  }

  /** `normalizeImagePath(value, subfolder)` */
  function NormalizeImagePath(value: JsValue, subfolder: string): (r: string)
    ensures !(value.Str? && value.s != []) ==> r == ""
  {
    if !(value.Str? && value.s != []) then "" else RewriteImagePath(ReplacePublicUpload(Trim(value.s)), subfolder)
  }

  /** The last two steps of `normalizeImagePath`: keep an upload path, otherwise strip the
      leading slashes and put the text under the subfolder. */
  function RewriteImagePath(v: string, subfolder: string): (r: string)
    ensures StartsWith(r, UPLOAD_PREFIX)
    ensures StartsWith(v, UPLOAD_PREFIX) ==> r == v
  {
    UnderPrefix(subfolder, StripLeadingSlashes(v));
    if StartsWith(v, UPLOAD_PREFIX) then v else UPLOAD_PREFIX + subfolder + "/" + StripLeadingSlashes(v)
  }

  /** Replacing the prefix of a trimmed text leaves it trimmed. */
  lemma ReplaceTrimmed(v: string)
    requires Trimmed(v)
    ensures Trimmed(ReplacePublicUpload(v))
  {
    var r := ReplacePublicUpload(v);
    if r != v {
      assert r[0] == '/';
      if |v| > 14 {
        assert r[|r| - 1] == v[|v| - 1];
      } else {
        assert r[|r| - 1] == 'd';
      }
    }
  }

  /** Every non-empty string becomes an upload path with no white space at either end;
      anything else becomes the empty string. */
  lemma ImagePathShape(value: JsValue, subfolder: string)
    ensures var r := NormalizeImagePath(value, subfolder);
            if value.Str? && value.s != [] then StartsWith(r, UPLOAD_PREFIX) && Trimmed(r) else r == ""
  {
    if value.Str? && value.s != [] {
      TrimIsTrimmed(value.s);
      ReplaceTrimmed(Trim(value.s));
      RewriteTrimmed(ReplacePublicUpload(Trim(value.s)), subfolder);
    }
  }

  /** The last rewrite keeps a trimmed text trimmed. */
  lemma RewriteTrimmed(v: string, subfolder: string)
    requires Trimmed(v)
    ensures Trimmed(RewriteImagePath(v, subfolder))
  {
    if !StartsWith(v, UPLOAD_PREFIX) {
      var w := StripLeadingSlashes(v);
      assert w == [] || w[|w| - 1] == v[|v| - 1];
      UnderSubfolder(subfolder, w);
    }
  }

  /** An upload path is left alone by the prefix replacement: it starts `/u`, not `/p`. */
  lemma UploadNotPublic(r: string)
    requires StartsWith(r, UPLOAD_PREFIX)
    ensures ReplacePublicUpload(r) == r
  {
    assert r[1] == 'u';
    if |r| >= 14 {
      assert Lower(r[..14])[1] == 'u';
    }
  }

  /** Normalising is idempotent on every input. */
  lemma ImagePathIdempotent(value: JsValue, subfolder: string)
    ensures var r := NormalizeImagePath(value, subfolder);
            NormalizeImagePath(Str(r), subfolder) == r
  {
    var r := NormalizeImagePath(value, subfolder);
    ImagePathShape(value, subfolder);
    if r != [] {
      TrimOfTrimmed(r);
      UploadNotPublic(r);
    }
  }

  /** Unlike the ad normaliser, any spelling of `/public/upload` in upper or lower case
      counts, and no slash is needed after it: of trimmed texts, `/PUBLIC/UPLOAD/a.png`
      becomes `/upload/a.png`, while `/public/uploads/a.png` becomes
      `/upload/products/uploads/a.png` (see `NormalizeTrimmed` for the trimming step). */
  lemma PublicPrefixAnyCase(p: string, rest: string, subfolder: string)
    requires |p| == 14 && Lower(p) == PUBLIC_UPLOAD
    ensures var r := RewriteImagePath(ReplacePublicUpload(p + rest), subfolder);
            && (rest != [] && rest[0] == '/' ==> r == "/upload" + rest)
            && (!(rest != [] && rest[0] == '/') ==> r == UPLOAD_PREFIX + subfolder + "/upload" + rest)
  {
    ReplaceAtPrefix(p, rest);
    RewriteAfterPrefix(rest, subfolder);
  }

  /** A non-empty text without surrounding white space is rewritten as it stands. */
  lemma NormalizeTrimmed(v: string, subfolder: string)
    requires v != [] && Trim(v) == v
    ensures NormalizeImagePath(Str(v), subfolder) == RewriteImagePath(ReplacePublicUpload(v), subfolder)
  {
  }

  lemma ReplaceAtPrefix(p: string, rest: string)
    requires |p| == 14 && Lower(p) == PUBLIC_UPLOAD
    ensures ReplacePublicUpload(p + rest) == "/upload" + rest
  {
    var v := p + rest;
    assert v[..14] == p && v[14..] == rest;
  }

  lemma RewriteAfterPrefix(rest: string, subfolder: string)
    ensures rest != [] && rest[0] == '/' ==> RewriteImagePath("/upload" + rest, subfolder) == "/upload" + rest
    ensures !(rest != [] && rest[0] == '/') ==>
              RewriteImagePath("/upload" + rest, subfolder) == UPLOAD_PREFIX + subfolder + "/upload" + rest
  {
    var w := "/upload" + rest;
    if rest != [] && rest[0] == '/' {
      assert w[..8] == UPLOAD_PREFIX;
    } else {
      assert !StartsWith(w, UPLOAD_PREFIX) by {
        if |w| >= 8 { assert w[7] == rest[0]; }
      }
      assert w[0] == '/' && w[1] == 'u';
      assert StripLeadingSlashes(w) == w[1..];
      assert w[1..] == "upload" + rest;
    }
  }

  // ----- Form flags -----

  /** `x === '1' || x === 1 || x === true` */
  predicate Flag(x: JsValue) {
    x == Str("1") || x == Num(1) || x == Bool(true)
  }

  /** The fields the product forms decide; the remaining form fields are copied as sent. */
  datatype Product = Product(name: string, image: string, isStock: bool, isFeatured: bool)

  /** Where a form submission ends: back on a form with messages, or on the list. */
  datatype Outcome = BackToCreate(errors: seq<string>) | BackToEdit(errors: seq<string>)
                   | BackToList(errors: seq<string>) | Saved(message: string)

  const IMAGE_REQUIRED: string := "Product image is required"
  const SAVE_FAILED: string := "Lỗi server khi lưu sản phẩm."
  const NOT_FOUND: string := "Sản phẩm không tồn tại."
  const UPDATE_FAILED: string := "Lỗi server khi cập nhật sản phẩm."

  /** `error.message || fallback` */
  function MessageOr(message: string, fallback: string): (m: string)
    ensures m != [] || fallback == []
  {
    if message != [] then message else fallback
  }

  /** `store`: validation errors first, then the uploaded file, then the save. `saveError`
      is the message of a failed create, when it fails. */
  function Store(validationErrors: seq<string>, uploaded: Option<string>, name: string,
                 isStock: JsValue, isFeatured: JsValue, saveError: Option<string>): (r: (Outcome, Option<Product>))
    ensures r.1.Some? <==> validationErrors == [] && uploaded.Some? && saveError.None?
    ensures validationErrors != [] ==> r == (BackToCreate(validationErrors), None)
    ensures validationErrors == [] && uploaded.None? ==> r == (BackToCreate([IMAGE_REQUIRED]), None)
    ensures r.1.Some? ==>
              && r.0 == Saved("Thêm sản phẩm thành công!")
              && r.1.value.image == NormalizeImagePath(Str(uploaded.value), PRODUCT_SUBFOLDER)
              && (r.1.value.isStock <==> Flag(isStock))
              && (r.1.value.isFeatured <==> Flag(isFeatured))
    ensures r.1.None? ==> r.0.BackToCreate? && r.0.errors != []
  {
    if validationErrors != [] then (BackToCreate(validationErrors), None)
    else if uploaded.None? then (BackToCreate([IMAGE_REQUIRED]), None)
    else if saveError.Some? then (BackToCreate([MessageOr(saveError.value, SAVE_FAILED)]), None)
    else
      var p := Product(name, NormalizeImagePath(Str(uploaded.value), PRODUCT_SUBFOLDER), Flag(isStock), Flag(isFeatured));
      (Saved("Thêm sản phẩm thành công!"), Some(p))
  }

  /** A stored product's image is always an upload path under the products folder when
      the uploaded file has a name. */
  lemma StoredImageIsUpload(uploaded: string, name: string, isStock: JsValue, isFeatured: JsValue)
    requires uploaded != []
    ensures var r := Store([], Some(uploaded), name, isStock, isFeatured, None);
            StartsWith(r.1.value.image, UPLOAD_PREFIX) && Trimmed(r.1.value.image)
  {
    ImagePathShape(Str(uploaded), PRODUCT_SUBFOLDER);
  }

  /** The changes an edit submits: the name when the form sends one, a new image (from an
      upload, else an `image` form field), the stock flag only when the field was sent, and
      the featured flag always. */
  datatype Patch = Patch(name: Option<string>, image: Option<string>, isStock: Option<bool>, isFeatured: bool)

  function EditPatch(bodyName: Option<string>, uploaded: Option<string>, bodyImage: Option<string>,
                     isStock: JsValue, isFeatured: JsValue): (u: Patch)
    ensures u.name == bodyName
    ensures u.image == (if uploaded.Some? then Some(NormalizeImagePath(Str(uploaded.value), PRODUCT_SUBFOLDER)) else bodyImage)
    ensures u.isStock.None? <==> isStock.Undefined?
    ensures u.isStock.Some? ==> (u.isStock.value <==> Flag(isStock))
    ensures u.isFeatured <==> Flag(isFeatured)
  {
    Patch(bodyName,
          if uploaded.Some? then Some(NormalizeImagePath(Str(uploaded.value), PRODUCT_SUBFOLDER)) else bodyImage,
          if isStock.Undefined? then None else Some(Flag(isStock)),
          Flag(isFeatured))
  }

  /** The write: every field the edit sends replaces the stored one. */
  function Apply(p: Product, u: Patch): (q: Product)
    ensures q.name == (if u.name.Some? then u.name.value else p.name)
    ensures q.isFeatured == u.isFeatured
    ensures q.image == (if u.image.Some? then u.image.value else p.image)
    ensures q.isStock == (if u.isStock.Some? then u.isStock.value else p.isStock)
  {
    Product(if u.name.Some? then u.name.value else p.name,
            if u.image.Some? then u.image.value else p.image,
            if u.isStock.Some? then u.isStock.value else p.isStock,
            u.isFeatured)
  }

  /** Submitting the same edit twice leaves the product as after the first. */
  lemma ApplyIdempotent(p: Product, u: Patch)
    ensures Apply(Apply(p, u), u) == Apply(p, u)
  {
  }

  /** `update`: validation errors first, then the lookup, then the write. The success message
      names the product as it was before the edit, even when the edit renames it. */
  function Update(products: map<string, Product>, id: string, validationErrors: seq<string>,
                  bodyName: Option<string>, uploaded: Option<string>, bodyImage: Option<string>, isStock: JsValue, isFeatured: JsValue,
                  saveError: Option<string>): (r: (Outcome, map<string, Product>))
    ensures r.1 != products ==> validationErrors == [] && id in products && saveError.None?
    ensures r.1.Keys == products.Keys
    ensures forall k :: k in products && k != id ==> r.1[k] == products[k]
    ensures validationErrors != [] ==> r.0 == BackToEdit(validationErrors)
    ensures validationErrors == [] && id !in products ==> r.0 == BackToList([NOT_FOUND])
    ensures r.0.Saved? <==> validationErrors == [] && id in products && saveError.None?
    ensures r.0.Saved? ==>
              && r.0.message == "Cập nhật sản phẩm " + products[id].name + " thành công!"
              && r.1[id] == Apply(products[id], EditPatch(bodyName, uploaded, bodyImage, isStock, isFeatured))
  {
    if validationErrors != [] then (BackToEdit(validationErrors), products)
    else if id !in products then (BackToList([NOT_FOUND]), products)
    else if saveError.Some? then (BackToEdit([MessageOr(saveError.value, UPDATE_FAILED)]), products)
    else
      var p := products[id];
      (Saved("Cập nhật sản phẩm " + p.name + " thành công!"),
       products[id := Apply(p, EditPatch(bodyName, uploaded, bodyImage, isStock, isFeatured))])
  }

  /** An edit that leaves out the name and the stock field keeps the stored ones, while one
      that leaves out the featured checkbox clears the featured flag. */
  lemma EditOmittedFlags(products: map<string, Product>, id: string, uploaded: Option<string>, bodyImage: Option<string>)
    requires id in products
    ensures var r := Update(products, id, [], None, uploaded, bodyImage, Undefined, Undefined, None);
            && r.1[id].name == products[id].name
            && r.1[id].isStock == products[id].isStock
            && !r.1[id].isFeatured
            && (uploaded.None? && bodyImage.None? ==> r.1[id].image == products[id].image)
  {
  }

  /** An edit that sends the create form's fields stores exactly what creating with them
      stores, the name included. */
  lemma EditAgreesWithStore(products: map<string, Product>, id: string, name: string, uploaded: string,
                            isStock: JsValue, isFeatured: JsValue)
    requires id in products && !isStock.Undefined?
    ensures var created := Store([], Some(uploaded), name, isStock, isFeatured, None).1.value;
            var edited := Update(products, id, [], Some(name), Some(uploaded), None, isStock, isFeatured, None).1[id];
            edited == created
  {
  }

  // ----- List navigation -----

  /** The page numbers `index` renders. */
  datatype Nav = Nav(page: int, prev: int, next: int, totalPages: int, items: seq<Pagination.PageItem>)

  /** The navigation of `index` from the `pages` object of the product API (absent when the
      response has none) and the requested page. */
  function IndexNav(pages: Option<Pagination.PageMeta>, page: int): (n: Nav)
    ensures pages.None? ==> n.page == page && n.prev == 1 && n.next == 0 && n.totalPages == 0 && n.items == []
    ensures pages.Some? ==>
              && n.totalPages == pages.value.total
              && n.page == (if pages.value.page != 0 then pages.value.page else page)
              && n.prev == (if pages.value.hasPrev then pages.value.prev else 1)
              && n.next == (if pages.value.hasNext then pages.value.next else pages.value.total)
    ensures n.items == Pagination.CompactPagination(n.totalPages, Num(n.page))
  {
    match pages
    case None => Nav(page, 1, 0, 0, Pagination.CompactPagination(0, Num(page)))
    case Some(m) =>
      var current := if m.page != 0 then m.page else page;
      Nav(current, if m.hasPrev then m.prev else 1, if m.hasNext then m.next else m.total, m.total,
          Pagination.CompactPagination(m.total, Num(current)))
  }

  /** With the metadata `paginate` computes, the product list's neighbours are the banner
      list's: the previous page is never below 1 and the next never beyond the last. */
  lemma IndexNavClamps(page: int, limit: int, count: nat)
    requires page >= 1 && limit > 0
    ensures var m := Pagination.Paginate(page, limit, count);
            var n := IndexNav(Some(m), page);
            && n.page == page
            && n.prev == (if page > 1 then page - 1 else 1)
            && n.next == (if page < m.total then page + 1 else m.total)
  {
  }

  /** The images `index` shows: each product image normalised. */
  function DisplayImages(images: seq<JsValue>): (r: seq<string>)
    ensures |r| == |images|
    ensures forall i :: 0 <= i < |r| ==> r[i] == NormalizeImagePath(images[i], PRODUCT_SUBFOLDER)
  {
    if images == [] then [] else [NormalizeImagePath(images[0], PRODUCT_SUBFOLDER)] + DisplayImages(images[1..])
  }

  /** Every shown image is empty or an upload path. */
  lemma DisplayedImagesAreUploads(images: seq<JsValue>)
    ensures forall i :: 0 <= i < |images| ==>
              var r := DisplayImages(images)[i];
              r == "" || StartsWith(r, UPLOAD_PREFIX)
  {
    forall i | 0 <= i < |images| ensures DisplayImages(images)[i] == "" || StartsWith(DisplayImages(images)[i], UPLOAD_PREFIX) {
      ImagePathShape(images[i], PRODUCT_SUBFOLDER);
    }
  }
}
