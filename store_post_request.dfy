/** The form request guarding post creation: authorisation, boolean
    coercion before validation, and the validation rules as a predicate per
    field, producing the validated attribute array. */
module StorePostRequest {

  import opened Base
  import opened Schema
  import opened PostModel

  /** The raw payload of a create request. Booleans arrive as strings. */
  datatype StoreRequest = StoreRequest(
    title: Field<string>,
    slug: Field<string>,
    excerpt: Field<string>,
    content: Field<string>,
    featuredImage: Field<string>,
    categoryId: Field<nat>,
    status: Field<string>,
    publishedAt: Field<Timestamp>,
    scheduledAt: Field<Timestamp>,
    isFeatured: Field<string>,
    allowComments: Field<string>,
    metaData: Field<MetaData>,
    tags: Field<seq<nat>>)

  /** The fields a rule can fail on. */
  datatype RuleField =
    | TitleField | SlugField | ExcerptField | ContentField | FeaturedImageField
    | CategoryField | StatusField | ScheduledAtField | MetaDataField | TagsField

  /** What the `unique` and `exists` rules look up in the database. */
  datatype Lookup = Lookup(slugs: set<string>, categoryIds: set<nat>, tagIds: set<nat>)

  const MaxTitle: nat := 255
  const MaxSlug: nat := 255
  const MaxExcerpt: nat := 500
  const MaxFeaturedImage: nat := 255
  const MaxMetaShort: nat := 255
  const MaxMetaLong: nat := 500

  /** authorize(): only a signed-in caller may create posts. */
  predicate Authorize(authenticated: bool) {
    authenticated
  }

  /** The words FILTER_VALIDATE_BOOLEAN reads as true, after trimming and
      ignoring case; every other value (and an absent or null key) is false. */
  const TrueWords: set<string> := {"1", "true", "on", "yes"}

  /** Request::boolean(): FILTER_VALIDATE_BOOLEAN on the raw value. */
  function CoerceBool(f: Field<string>): (b: bool)
    ensures b <==> f.Given? && Lower(TrimEnd(TrimStart(f.value))) in TrueWords
  {
    f.Given? && Lower(TrimEnd(TrimStart(f.value))) in TrueWords
  }

  /** A true word, in any letter case, starts and ends with a character the
      filter does not trim. */
  lemma TrueWordEnds(word: string)
    requires Lower(word) in TrueWords
    ensures |word| > 0 && !IsFilterSpace(word[0]) && !IsFilterSpace(word[|word| - 1])
  {
    var w := Lower(word);
    assert |w| > 0 && !IsFilterSpace(w[0]) && !IsFilterSpace(w[|w| - 1]);
    assert w[0] == LowerChar(word[0]) && w[|w| - 1] == LowerChar(word[|word| - 1]);
  }

  /** A true word in any letter case, with any filter whitespace around it,
      coerces to true. */
  lemma CoerceBoolPadded(pre: string, word: string, post: string)
    requires forall i | 0 <= i < |pre| :: IsFilterSpace(pre[i])
    requires forall i | 0 <= i < |post| :: IsFilterSpace(post[i])
    requires Lower(word) in TrueWords
    ensures CoerceBool(Given(pre + word + post))
  {
    TrueWordEnds(word);
    assert pre + word + post == pre + (word + post);
    TrimStartSkips(pre, word + post);
    TrimEndSkips(word, post);
  }

  /** A value with no filter whitespace at its ends is read as true exactly
      when its lower-case form is a true word. */
  lemma CoerceBoolUnpadded(word: string)
    requires word == [] || (!IsFilterSpace(word[0]) && !IsFilterSpace(word[|word| - 1]))
    ensures CoerceBool(Given(word)) <==> Lower(word) in TrueWords
  {
    assert "" + word == word && word + "" == word;
    TrimStartSkips("", word);
    TrimEndSkips(word, "");
  }

  /** Upper case reads as true, as strncasecmp compares. */
  lemma CoerceBoolIgnoresCase()
    ensures CoerceBool(Given("TRUE"))
  {
    CoerceBoolUnpadded("TRUE");
    assert Lower("TRUE") == "true";
  }

  /** Leading whitespace is trimmed before the comparison. */
  lemma CoerceBoolIgnoresPadding()
    ensures CoerceBool(Given(" Yes"))
  {
    assert Lower("Yes") == "yes";
    CoerceBoolPadded(" ", "Yes", "");
    assert " " + "Yes" + "" == " Yes";
  }

  /** Values PHP's boolean filter reads as false. */
  lemma CoerceBoolFalseExamples()
    ensures !CoerceBool(Given("off")) && !CoerceBool(Given("0")) && !CoerceBool(Null)
  {
    CoerceBoolUnpadded("off");
    CoerceBoolUnpadded("0");
    assert Lower("off") == "off" && Lower("0") == "0";
  }

  /** `required`: present, not null, not blank. */
  predicate RequiredString(f: Field<string>) {
    f.Given? && !IsBlank(f.value)
  }

  /** `nullable|string|max:n`: rules other than `required` skip absent, null
      and blank values. */
  predicate OptionalMax(f: Field<string>, max: nat) {
    !f.Given? || IsBlank(f.value) || |f.value| <= max
  }

  predicate MetaDataOk(m: MetaData) {
    && OptionalMax(m.metaTitle, MaxMetaShort)
    && OptionalMax(m.metaDescription, MaxMetaLong)
    && OptionalMax(m.metaKeywords, MaxMetaShort)
    && OptionalMax(m.ogTitle, MaxMetaShort)
    && OptionalMax(m.ogDescription, MaxMetaLong)
    && OptionalMax(m.twitterTitle, MaxMetaShort)
    && OptionalMax(m.twitterDescription, MaxMetaLong)
  }

  /** The rules() table, one field at a time. */
  predicate RulePasses(f: RuleField, req: StoreRequest, now: Timestamp, db: Lookup) {
    match f
    case TitleField => RequiredString(req.title) && |req.title.value| <= MaxTitle
    case SlugField =>
      !req.slug.Given? || IsBlank(req.slug.value) || (|req.slug.value| <= MaxSlug && req.slug.value !in db.slugs)
    case ExcerptField => OptionalMax(req.excerpt, MaxExcerpt)
    case ContentField => RequiredString(req.content)
    case FeaturedImageField => OptionalMax(req.featuredImage, MaxFeaturedImage)
    case CategoryField => req.categoryId.Given? && req.categoryId.value in db.categoryIds
    case StatusField => req.status.Given? && ParseStatus(req.status.value).Some?
    case ScheduledAtField => req.scheduledAt.Given? ==> req.scheduledAt.value > now
    case MetaDataField => req.metaData.Given? ==> MetaDataOk(req.metaData.value)
    case TagsField => req.tags.Given? ==> forall t | t in req.tags.value :: t in db.tagIds
  }

  const AllFields: set<RuleField> :=
    {TitleField, SlugField, ExcerptField, ContentField, FeaturedImageField,
     CategoryField, StatusField, ScheduledAtField, MetaDataField, TagsField}

  lemma AllFieldsComplete(f: RuleField)
    ensures f in AllFields
  {
    match f
    case TitleField =>
    case SlugField =>
    case ExcerptField =>
    case ContentField =>
    case FeaturedImageField =>
    case CategoryField =>
    case StatusField =>
    case ScheduledAtField =>
    case MetaDataField =>
    case TagsField =>
  }

  /** The failing fields. */
  function Violations(req: StoreRequest, now: Timestamp, db: Lookup): (v: set<RuleField>)
    ensures forall f :: f in v <==> !RulePasses(f, req, now, db)
  {
    forall f ensures f in AllFields { AllFieldsComplete(f); }
    set f | f in AllFields && !RulePasses(f, req, now, db)
  }

  /** validated(): the payload keys that carry rules, with is_featured and
      allow_comments coerced to booleans and the status read as the enum.
      user_id and reading_time have no rule and are never part of it. */
  function Validated(req: StoreRequest): (d: PostData)
    requires req.status.Given? && ParseStatus(req.status.value).Some?
  {
    PostData(
      title := req.title,
      slug := req.slug,
      excerpt := req.excerpt,
      content := req.content,
      featuredImage := req.featuredImage,
      categoryId := req.categoryId,
      userId := Missing,
      status := Given(ParseStatus(req.status.value).value),
      publishedAt := req.publishedAt,
      scheduledAt := req.scheduledAt,
      isFeatured := Given(CoerceBool(req.isFeatured)),
      allowComments := Given(CoerceBool(req.allowComments)),
      readingTime := Missing,
      metaData := req.metaData,
      tags := match req.tags case Missing => Missing case Null => Null case Given(ts) => Given(set t | t in ts))
  }

  /** Validation: either every rule passes and the validated data comes back,
      or the set of exactly the failing fields does. */
  function Validate(req: StoreRequest, now: Timestamp, db: Lookup): (r: Result<PostData, set<RuleField>>)
    ensures r.Ok? <==> forall f :: RulePasses(f, req, now, db)
    ensures r.Err? ==> r.error != {} && forall f :: f in r.error <==> !RulePasses(f, req, now, db)
    ensures r.Ok? ==>
      var d := r.value;
      && d.title.Given? && !IsBlank(d.title.value) && |d.title.value| <= MaxTitle
      && d.content.Given? && !IsBlank(d.content.value)
      && d.categoryId.Given? && d.categoryId.value in db.categoryIds
      && d.status.Given? && req.status.Given? && StatusName(d.status.value) == req.status.value
      && (d.scheduledAt.Given? ==> d.scheduledAt.value > now)
      && (d.slug.Given? && !IsBlank(d.slug.value) ==> d.slug.value !in db.slugs)
      && (d.tags.Given? ==> d.tags.value <= db.tagIds)
      && d.isFeatured.Given? && d.allowComments.Given?
      && d.userId.Missing? && d.readingTime.Missing?
    ensures r.Ok? ==>
      var d := r.value;
      && d.title == req.title && d.slug == req.slug && d.excerpt == req.excerpt
      && d.content == req.content && d.featuredImage == req.featuredImage
      && d.categoryId == req.categoryId && d.publishedAt == req.publishedAt
      && d.scheduledAt == req.scheduledAt && d.metaData == req.metaData
      && d.isFeatured == Given(CoerceBool(req.isFeatured))
      && d.allowComments == Given(CoerceBool(req.allowComments))
  {
    var v := Violations(req, now, db);
    if v == {} then
      assert RulePasses(TitleField, req, now, db) && RulePasses(ContentField, req, now, db);
      assert RulePasses(CategoryField, req, now, db) && RulePasses(StatusField, req, now, db);
      assert RulePasses(SlugField, req, now, db) && RulePasses(ScheduledAtField, req, now, db);
      assert RulePasses(TagsField, req, now, db);
      Ok(Validated(req))
    else
      Err(v)
  }

  /** The rules the create form is refused on, case by case. */
  lemma RejectedRequests(req: StoreRequest, now: Timestamp, db: Lookup)
    ensures !req.title.Given? || |req.title.value| > MaxTitle ==>
      Validate(req, now, db).Err? && TitleField in Validate(req, now, db).error
    ensures !req.content.Given? ==>
      Validate(req, now, db).Err? && ContentField in Validate(req, now, db).error
    ensures req.status.Given? && req.status.value !in {"draft", "published", "scheduled"} ==>
      Validate(req, now, db).Err? && StatusField in Validate(req, now, db).error
    ensures req.scheduledAt.Given? && req.scheduledAt.value <= now ==>
      Validate(req, now, db).Err? && ScheduledAtField in Validate(req, now, db).error
    ensures req.slug.Given? && req.slug.value in db.slugs && !IsBlank(req.slug.value) ==>
      Validate(req, now, db).Err? && SlugField in Validate(req, now, db).error
    ensures !req.scheduledAt.Given? ==>
      Validate(req, now, db).Err? ==> ScheduledAtField !in Validate(req, now, db).error
    ensures req.excerpt.Given? && !IsBlank(req.excerpt.value) && |req.excerpt.value| > MaxExcerpt ==>
      Validate(req, now, db).Err? && ExcerptField in Validate(req, now, db).error
    ensures !req.categoryId.Given? || req.categoryId.value !in db.categoryIds ==>
      Validate(req, now, db).Err? && CategoryField in Validate(req, now, db).error
    ensures req.tags.Given? && (exists t | t in req.tags.value :: t !in db.tagIds) ==>
      Validate(req, now, db).Err? && TagsField in Validate(req, now, db).error
  {
    if req.excerpt.Given? && !IsBlank(req.excerpt.value) && |req.excerpt.value| > MaxExcerpt {
      assert !RulePasses(ExcerptField, req, now, db);
    }
    if !req.categoryId.Given? || req.categoryId.value !in db.categoryIds {
      assert !RulePasses(CategoryField, req, now, db);
    }
    if req.tags.Given? && (exists t | t in req.tags.value :: t !in db.tagIds) {
      assert !RulePasses(TagsField, req, now, db);
    }
    if req.status.Given? && req.status.value !in {"draft", "published", "scheduled"} {
      assert !RulePasses(StatusField, req, now, db);
    }
    if !req.title.Given? || |req.title.value| > MaxTitle {
      assert !RulePasses(TitleField, req, now, db);
    }
    if !req.content.Given? {
      assert !RulePasses(ContentField, req, now, db);
    }
    if req.scheduledAt.Given? && req.scheduledAt.value <= now {
      assert !RulePasses(ScheduledAtField, req, now, db);
    }
    if req.slug.Given? && req.slug.value in db.slugs && !IsBlank(req.slug.value) {
      assert !RulePasses(SlugField, req, now, db);
    }
  }
}
