/**
 * The backend's create, update and delete handlers over the `posts` table
 * and the image bucket. The table is a map from the integer `id` to a row,
 * the bucket a set of object names; what the database and the storage
 * service answer to a write or an upload is a parameter.
 */
module PostsApi {
  import opened Wrappers
  import opened Text
  import opened Uploads

  /** A row of `posts`; the timestamps are left out. */
  datatype Row = Row(postId: string, platform: string, country: string, status: string,
                     imageUrl: Option<string>)

  /** The multipart text fields of a request (`request.form`). */
  type Form = map<string, string>

  /** The `image` part of `request.files`; a part sent without a name has the name "". */
  datatype Upload = Upload(filename: string)

  /** How one call to the database or to storage went. */
  datatype Step = Done | Failed(message: string)

  /** The JSON body of a reply. */
  datatype Body = PostBody(id: int, row: Row) | MessageBody(message: string) | ErrorBody(error: string)

  /** A reply: HTTP status and body. */
  datatype Reply = Reply(status: int, body: Body)

  /** `request.form.get(key)`. */
  function FormValue(form: Form, key: string): Option<string> {
    if key in form then Some(form[key]) else None
  }

  /** Python truthiness of an optional string (a form value, `image_url`): present and not empty. */
  predicate Filled(v: Option<string>) {
    v.Some? && v.value != ""
  }

  /** The fields `create_post` cannot do without. */
  const RequiredFields: set<string> := {"post_id", "platform", "country"}

  /**
   * `not all([post_id, platform, country])`: a request is complete exactly
   * when every required field is sent and not empty.
   */
  function MissingRequired(form: Form): (missing: bool)
    ensures !missing <==> forall k :: k in RequiredFields ==> k in form && form[k] != ""
  {
    !(Filled(FormValue(form, "post_id")) && Filled(FormValue(form, "platform"))
      && Filled(FormValue(form, "country")))
  }

  /** `request.form.get('status', 'Available')`: the default applies only when the field is absent. */
  function StatusOrDefault(form: Form): (s: string)
    ensures "status" !in form ==> s == "Available"
    ensures "status" in form ==> s == form["status"]
  {
    FormValue(form, "status").GetOr("Available")
  }

  /** Some row already has this `post_id`: the `.eq('post_id', ...)` lookup finds a record. */
  predicate HasPostId(rows: map<int, Row>, postId: string): (found: bool)
    ensures found <==> postId in (set id | id in rows :: rows[id].postId)
  {
    exists id :: id in rows && rows[id].postId == postId
  }

  /**
   * `file and file.filename != '' and allowed_file(file.filename)`; the
   * middle test adds nothing, since an allowed name holds a '.'.
   */
  predicate ValidImage(image: Option<Upload>): (valid: bool)
    ensures valid <==> image.Some? && AllowedFile(image.value.filename)
  {
    image.Some? && image.value.filename != "" && AllowedFile(image.value.filename)
  }

  /** No two rows share a `post_id`. */
  ghost predicate UniquePostIds(rows: map<int, Row>) {
    forall a, b :: a in rows && b in rows && a != b ==> rows[a].postId != rows[b].postId
  }

  /**
   * The object that deleting a row's image removes: the text after the URL's
   * last '/'. It is `StorageFilename` on a URL known to be set, kept as a
   * plain string so that the table's invariants need no `Option` unwrapping;
   * `ImageObjectIsStorageFilename` ties the two.
   */
  function ImageObject(url: Option<string>): string
    requires Filled(url)
  {
    AfterLast(url.value, '/')
  }

  /** `ImageObject` is the name `delete_image_from_supabase` computes for a URL that is set. */
  lemma ImageObjectIsStorageFilename(url: Option<string>)
    requires Filled(url)
    ensures StorageFilename(url) == Some(ImageObject(url))
  {
  }

  /** Every image a row refers to is stored. */
  ghost predicate ImagesStored(rows: map<int, Row>, objects: set<string>) {
    forall id :: id in rows && Filled(rows[id].imageUrl) ==> ImageObject(rows[id].imageUrl) in objects
  }

  /** No two rows refer to the same stored image. */
  ghost predicate ImagesDistinct(rows: map<int, Row>) {
    forall a, b ::
      a in rows && b in rows && a != b && Filled(rows[a].imageUrl) && Filled(rows[b].imageUrl) ==>
        ImageObject(rows[a].imageUrl) != ImageObject(rows[b].imageUrl)
  }

  /**
   * What an upload of `name` gives: the storage service refuses a name that
   * is already taken, and `outcome` is how the call itself went.
   */
  function UploadStep(name: string, outcome: Step, objects: set<string>): (step: Step)
    ensures step.Done? <==> outcome.Done? && name !in objects
    ensures outcome.Failed? ==> step == outcome
  {
    if outcome.Failed? then outcome
    else if name in objects then Failed("Upload failed: The resource already exists")
    else Done
  }

  /**
   * The row `update_post` writes before any new image: each of `post_id`,
   * `platform`, `country` and `status` is the sent value when the field was
   * sent and the existing one otherwise; the image stays.
   */
  function UpdatedFields(existing: Row, form: Form): (r: Row)
    ensures r.postId == if "post_id" in form then form["post_id"] else existing.postId
    ensures r.platform == if "platform" in form then form["platform"] else existing.platform
    ensures r.country == if "country" in form then form["country"] else existing.country
    ensures r.status == if "status" in form then form["status"] else existing.status
    ensures r.imageUrl == existing.imageUrl
    ensures form == map[] ==> r == existing
  {
    Row(FormValue(form, "post_id").GetOr(existing.postId),
        FormValue(form, "platform").GetOr(existing.platform),
        FormValue(form, "country").GetOr(existing.country),
        FormValue(form, "status").GetOr(existing.status),
        existing.imageUrl)
  }

  /** The objects removed by `delete_image_from_supabase(url)`. */
  function Removed(url: Option<string>): (r: set<string>)
    ensures |r| <= 1
    ensures Filled(url) <==> r != {}
  {
    if Filled(url) then {ImageObject(url)} else {}
  }


  /** Some row refers to the stored object `name`. */
  ghost predicate Referenced(rows: map<int, Row>, name: string) {
    exists id :: id in rows && Filled(rows[id].imageUrl) && ImageObject(rows[id].imageUrl) == name
  }

  /** An object that was not stored is referenced by no row. */
  lemma NewObjectUnreferenced(rows: map<int, Row>, objects: set<string>, name: string)
    requires ImagesStored(rows, objects) && name !in objects
    ensures !Referenced(rows, name)
  {
  }

  /** Storing one more object keeps every referenced image stored. */
  lemma ImagesKeptWhenObjectAdded(rows: map<int, Row>, objects: set<string>, name: string)
    requires ImagesStored(rows, objects)
    ensures ImagesStored(rows, objects + {name})
  {
  }

  /** Removing the object of an image no row refers to keeps every referenced image stored. */
  lemma ImagesKeptWhenObjectDropped(rows: map<int, Row>, objects: set<string>, url: Option<string>)
    requires ImagesStored(rows, objects)
    requires Filled(url) ==> !Referenced(rows, ImageObject(url))
    ensures ImagesStored(rows, objects - Removed(url))
  {
  }

  /** A row written back with the image it had keeps the images stored and unshared. */
  lemma ImagesKeptWhenImageKept(rows: map<int, Row>, objects: set<string>, id: int, row: Row)
    requires ImagesStored(rows, objects) && ImagesDistinct(rows)
    requires id in rows && row.imageUrl == rows[id].imageUrl
    ensures ImagesStored(rows[id := row], objects) && ImagesDistinct(rows[id := row])
  {
  }

  /**
   * A row whose image is replaced by a stored object no row refers to, with
   * the old object then removed, keeps the images stored and unshared.
   */
  lemma ImagesKeptWhenImageReplaced(rows: map<int, Row>, objects: set<string>, id: int, row: Row)
    requires ImagesStored(rows, objects) && ImagesDistinct(rows) && id in rows
    requires Filled(row.imageUrl) && ImageObject(row.imageUrl) in objects
    requires !Referenced(rows, ImageObject(row.imageUrl))
    ensures ImagesStored(rows[id := row], objects - Removed(rows[id].imageUrl))
    ensures ImagesDistinct(rows[id := row])
  {
    ImagesStoredWhenImageReplaced(rows, objects, id, row);
  }

  /** The stored half of `ImagesKeptWhenImageReplaced`. */
  lemma ImagesStoredWhenImageReplaced(rows: map<int, Row>, objects: set<string>, id: int, row: Row)
    requires ImagesStored(rows, objects) && ImagesDistinct(rows) && id in rows
    requires Filled(row.imageUrl) && ImageObject(row.imageUrl) in objects
    requires !Referenced(rows, ImageObject(row.imageUrl))
    ensures ImagesStored(rows[id := row], objects - Removed(rows[id].imageUrl))
  {
    var after := objects - Removed(rows[id].imageUrl);
    var rows' := rows[id := row];
    forall k | k in rows' && Filled(rows'[k].imageUrl)
      ensures ImageObject(rows'[k].imageUrl) in after
    {
      if k == id {
        assert ImageObject(row.imageUrl) !in Removed(rows[id].imageUrl);
      } else {
        var o := ImageObject(rows[k].imageUrl);
        assert o in objects;
        assert o !in Removed(rows[id].imageUrl);
      }
    }
  }

  /**
   * Adding a row whose image, if any, is a stored object no row refers to
   * keeps the images stored and unshared.
   */
  lemma ImagesKeptWhenRowAdded(rows: map<int, Row>, objects: set<string>, id: int, row: Row)
    requires ImagesStored(rows, objects) && ImagesDistinct(rows) && id !in rows
    requires Filled(row.imageUrl) ==>
               ImageObject(row.imageUrl) in objects && !Referenced(rows, ImageObject(row.imageUrl))
    ensures ImagesStored(rows[id := row], objects) && ImagesDistinct(rows[id := row])
  {
  }

  /** Adding a row under a new id with a `post_id` no row has keeps `post_id`s unique. */
  lemma UniqueKeptWhenRowAdded(rows: map<int, Row>, id: int, row: Row)
    requires id !in rows
    ensures !HasPostId(rows, row.postId) && UniquePostIds(rows) ==> UniquePostIds(rows[id := row])
  {
  }

  /** Removing a row together with its image keeps the other images stored and unshared. */
  lemma ImagesKeptWhenRowRemoved(rows: map<int, Row>, objects: set<string>, id: int)
    requires ImagesStored(rows, objects) && ImagesDistinct(rows) && id in rows
    ensures ImagesStored(rows - {id}, objects - Removed(rows[id].imageUrl))
    ensures ImagesDistinct(rows - {id})
  {
  }

  /** The rows, the next id and the stored objects of a table. */
  type TableState = (map<int, Row>, int, set<string>)

  /** The row `create_post` builds from an accepted form, before any image. */
  function NewRow(form: Form): (r: Row)
    requires !MissingRequired(form)
    ensures r.postId == form["post_id"] && r.platform == form["platform"] && r.country == form["country"]
    ensures r.status == StatusOrDefault(form) && r.imageUrl.None?
  {
    Row(form["post_id"], form["platform"], form["country"], StatusOrDefault(form), None)
  }

  /**
   * How an accepted `create_post` leaves the table and what it answers. With
   * a valid image the name is generated from the post's id and the token;
   * a failed upload answers 500 and changes nothing; a failed insert answers
   * 500 with the database's message and leaves the table as it was (the
   * uploaded image is removed again); otherwise the row, with the image's
   * public URL or no image, is stored under the next id, which then
   * advances, and the body is the stored row.
   */
  ghost predicate Added(before: TableState, after: TableState, reply: Reply, bucketUrl: string,
                        fields: Row, image: Option<Upload>, hex: string, upload: Step, write: Step)
  {
    if ValidImage(image) then AddedWithImage(before, after, reply, bucketUrl, fields, image.value, hex, upload, write)
    else AddedWithoutImage(before, after, reply, fields, write)
  }

  /** `Added` when no valid image came with the request: the row is stored without one. */
  ghost predicate AddedWithoutImage(before: TableState, after: TableState, reply: Reply, fields: Row, write: Step) {
    var row := fields.(imageUrl := None);
    && (write.Failed? ==> reply == Reply(500, ErrorBody(write.message)) && after == before)
    && (write.Done? ==>
          reply == Reply(201, PostBody(before.1, row)) && before.1 !in before.0
          && after == (before.0[before.1 := row], before.1 + 1, before.2))
  }

  /** `Added` with a valid image: it is uploaded under its generated name before the insert. */
  ghost predicate AddedWithImage(before: TableState, after: TableState, reply: Reply, bucketUrl: string,
                                 fields: Row, image: Upload, hex: string, upload: Step, write: Step)
    requires AllowedFile(image.filename)
  {
    ImageAdded(before, after, reply, bucketUrl, fields, UploadName(fields.postId, hex, image.filename), upload, write)
  }

  /**
   * A post added with the image stored as `name`: a failed upload or a
   * failed insert leaves the table as it was; otherwise the row, with the
   * image's public URL, is stored under the next id and `name` is stored.
   */
  ghost predicate ImageAdded(before: TableState, after: TableState, reply: Reply, bucketUrl: string,
                             fields: Row, name: string, upload: Step, write: Step)
  {
    var step := UploadStep(name, upload, before.2);
    var row := fields.(imageUrl := Some(bucketUrl + name));
    && (step.Failed? ==>
          reply == Reply(500, ErrorBody("Image upload failed: " + step.message)) && after == before)
    && (step.Done? && write.Failed? ==> reply == Reply(500, ErrorBody(write.message)) && after == before)
    && (step.Done? && write.Done? ==>
          reply == Reply(201, PostBody(before.1, row)) && before.1 !in before.0
          && after == (before.0[before.1 := row], before.1 + 1, before.2 + {name}))
  }

  /** The public URL of an object whose name holds no '/' names that object again. */
  lemma PublicUrlNamesObject(bucketUrl: string, name: string)
    requires IsBucketPrefix(bucketUrl) && '/' !in name
    ensures Filled(Some(bucketUrl + name)) && ImageObject(Some(bucketUrl + name)) == name
  {
    var head := bucketUrl[..|bucketUrl| - 1];
    assert bucketUrl + name == head + ['/'] + name;
    AfterLastOfJoin(head, '/', name);
  }

  class PostsTable {
    var rows: map<int, Row>
    var nextId: int
    var objects: set<string>
    /** The public URL prefix of the image bucket. */
    const bucketUrl: string

    /**
     * Row ids are below the next id the table hands out, every referenced
     * image is stored, and no two rows share one.
     */
    ghost predicate Valid()
      reads this
    {
      && IsBucketPrefix(bucketUrl)
      && (forall id :: id in rows ==> id < nextId)
      && ImagesStored(rows, objects)
      && ImagesDistinct(rows)
    }

    ghost function State(): (map<int, Row>, int, set<string>)
      reads this
    {
      (rows, nextId, objects)
    }

    /** An empty table and an empty bucket; ids start at 1. */
    constructor (bucketUrl: string)
      requires IsBucketPrefix(bucketUrl)
      ensures Valid()
      ensures this.bucketUrl == bucketUrl && rows == map[] && nextId == 1 && objects == {}
    {
      this.bucketUrl := bucketUrl;
      rows, nextId, objects := map[], 1, {};
    }

    /**
     * `upload_image_to_supabase` once the name is made: stores `name` unless
     * the upload fails, and gives back the object's public URL, which names
     * that object again when `name` holds no '/'.
     */
    method StoreImage(name: string, upload: Step) returns (step: Step, url: Option<string>)
      requires IsBucketPrefix(bucketUrl)
      modifies this`objects
      ensures step == UploadStep(name, upload, old(objects))
      ensures step.Failed? ==> objects == old(objects) && url.None?
      ensures step.Done? ==> name !in old(objects) && objects == old(objects) + {name}
                             && url == Some(bucketUrl + name) && Filled(url)
      ensures step.Done? && '/' !in name ==> ImageObject(url) == name
    {
      step := UploadStep(name, upload, objects);
      url := None;
      if step.Done? {
        objects := objects + {name};
        if '/' !in name {
          PublicUrlNamesObject(bucketUrl, name);
        }
        url := Some(bucketUrl + name);
      }
    }

    /** `delete_image_from_supabase`: removes the object named by the URL's last segment, if any. */
    method DeleteImage(url: Option<string>)
      modifies this`objects
      ensures objects == old(objects) - Removed(url)
    {
      var name := StorageFilename(url);
      if name.Some? {
        objects := objects - {name.value};
      }
    }

    /** `StoreImage` on a valid table: the table stays valid and the new object is referenced by no row. */
    method StoreNewImage(name: string, upload: Step) returns (step: Step, url: Option<string>)
      requires Valid() && '/' !in name
      modifies this`objects
      ensures Valid()
      ensures step == UploadStep(name, upload, old(objects))
      ensures step.Failed? ==> objects == old(objects) && url.None?
      ensures step.Done? ==> name !in old(objects) && objects == old(objects) + {name}
                             && url == Some(bucketUrl + name) && Filled(url) && ImageObject(url) == name
                             && !Referenced(rows, name)
    {
      ghost var before := objects;
      step, url := StoreImage(name, upload);
      if step.Done? {
        NewObjectUnreferenced(rows, before, name);
        ImagesKeptWhenObjectAdded(rows, before, name);
      }
    }

    /**
     * `create_post`. Missing fields are reported before a duplicate
     * `post_id`; a refused request changes nothing; otherwise the post is
     * added as `AddPost` describes.
     */
    method CreatePost(form: Form, image: Option<Upload>, hex: string, upload: Step, write: Step)
      returns (reply: Reply)
      requires Valid() && IsHexToken(hex)
      modifies this
      ensures Valid()
      ensures MissingRequired(form) ==>
                reply == Reply(400, ErrorBody("Missing required fields")) && State() == old(State())
      ensures !MissingRequired(form) && HasPostId(old(rows), form["post_id"]) ==>
                reply == Reply(400, ErrorBody("Post ID already exists")) && State() == old(State())
      ensures !MissingRequired(form) && !HasPostId(old(rows), form["post_id"]) ==>
                Added(old(State()), State(), reply, bucketUrl, NewRow(form), image, hex, upload, write)
      ensures UniquePostIds(old(rows)) ==> UniquePostIds(rows)
    {
      var postId := FormValue(form, "post_id");
      var platform := FormValue(form, "platform");
      var country := FormValue(form, "country");
      if !(Filled(postId) && Filled(platform) && Filled(country)) {
        return Reply(400, ErrorBody("Missing required fields"));
      }
      if HasPostId(rows, postId.value) {
        return Reply(400, ErrorBody("Post ID already exists"));
      }
      reply := AddPost(NewRow(form), image, hex, upload, write);
    }

    /**
     * The part of `create_post` after validation: a valid image is uploaded
     * first, then the row is inserted under the next id; a failed upload
     * changes nothing, and a failed insert removes the image it uploaded.
     */
    method AddPost(fields: Row, image: Option<Upload>, hex: string, upload: Step, write: Step)
      returns (reply: Reply)
      requires Valid() && IsHexToken(hex) && fields.imageUrl.None?
      modifies this`rows, this`nextId, this`objects
      ensures Valid()
      ensures Added(old(State()), State(), reply, bucketUrl, fields, image, hex, upload, write)
      ensures !HasPostId(old(rows), fields.postId) && UniquePostIds(old(rows)) ==> UniquePostIds(rows)
    {
      if !ValidImage(image) {
        ghost var before := objects;
        reply := Insert(fields, write);
        assert objects == before;
      } else {
        var name := UploadName(fields.postId, hex, image.value.filename);
        UploadNameIsOneSegment(fields.postId, hex, image.value.filename);
        reply := AddWithImage(fields, name, upload, write);
      }
    }

    /** `create_post` with an allowed image: upload, then insert; a failed insert removes the image. */
    method AddWithImage(fields: Row, name: string, upload: Step, write: Step)
      returns (reply: Reply)
      requires Valid() && '/' !in name
      modifies this`rows, this`nextId, this`objects
      ensures Valid()
      ensures !HasPostId(old(rows), fields.postId) && UniquePostIds(old(rows)) ==> UniquePostIds(rows)
      ensures ImageAdded(old(State()), State(), reply, bucketUrl, fields, name, upload, write)
    {
      ghost var start := State();
      var step, url := StoreNewImage(name, upload);
      if step.Failed? {
        assert State() == start;
        return Reply(500, ErrorBody("Image upload failed: " + step.message));
      }
      var row := fields.(imageUrl := url);
      reply := Insert(row, write);
      if write.Failed? {
        assert State() == start;
      } else {
        assert State() == (start.0[start.1 := row], start.1 + 1, start.2 + {name});
      }
    }

    /**
     * The insert of `create_post`: the row gets the next id. When the insert
     * fails, the row's image, if any, is removed.
     */
    method Insert(row: Row, write: Step) returns (reply: Reply)
      requires Valid()
      requires Filled(row.imageUrl) ==>
                 ImageObject(row.imageUrl) in objects && !Referenced(rows, ImageObject(row.imageUrl))
      modifies this`rows, this`nextId, this`objects
      ensures Valid()
      ensures !HasPostId(old(rows), row.postId) && UniquePostIds(old(rows)) ==> UniquePostIds(rows)
      ensures write.Failed? ==>
                && reply == Reply(500, ErrorBody(write.message)) && rows == old(rows) && nextId == old(nextId)
                && objects == old(objects) - Removed(row.imageUrl)
      ensures write.Done? ==>
                && reply == Reply(201, PostBody(old(nextId), row)) && old(nextId) !in old(rows)
                && rows == old(rows)[old(nextId) := row] && nextId == old(nextId) + 1
                && objects == old(objects)
    {
      if write.Failed? {
        ImagesKeptWhenObjectDropped(rows, objects, row.imageUrl);
        if Filled(row.imageUrl) {
          DeleteImage(row.imageUrl);
        }
        assert objects == old(objects) - Removed(row.imageUrl);
        return Reply(500, ErrorBody(write.message));
      }
      ImagesKeptWhenRowAdded(rows, objects, nextId, row);
      UniqueKeptWhenRowAdded(rows, nextId, row);
      rows := rows[nextId := row];
      reply := Reply(201, PostBody(nextId, row));
      nextId := nextId + 1;
    }

    /**
     * `update_post`, with the image steps in a safe order: the new image is
     * uploaded first, the row is written, and only then is the old image
     * removed; a failed write removes the new image again. An unknown id is
     * a 404 and a refused request changes nothing.
     */
    method UpdatePost(id: int, form: Form, image: Option<Upload>, hex: string, upload: Step, write: Step)
      returns (reply: Reply)
      requires Valid() && IsHexToken(hex)
      modifies this
      ensures Valid()
      ensures id !in old(rows) ==>
                reply == Reply(404, ErrorBody("Post not found")) && State() == old(State())
      ensures id in old(rows) && !ValidImage(image) ==>
                var row := UpdatedFields(old(rows)[id], form);
                && (write.Failed? ==>
                      reply == Reply(500, ErrorBody(write.message)) && State() == old(State()))
                && (write.Done? ==>
                      reply == Reply(200, PostBody(id, row))
                      && rows == old(rows)[id := row] && nextId == old(nextId) && objects == old(objects))
      ensures id in old(rows) && ValidImage(image) ==>
                var existing := old(rows)[id];
                var fields := UpdatedFields(existing, form);
                var name := UploadName(fields.postId, hex, image.value.filename);
                var step := UploadStep(name, upload, old(objects));
                var row := fields.(imageUrl := Some(bucketUrl + name));
                && (step.Failed? ==>
                      reply == Reply(500, ErrorBody("Image upload failed: " + step.message))
                      && State() == old(State()))
                && (step.Done? && write.Failed? ==>
                      reply == Reply(500, ErrorBody(write.message)) && State() == old(State()))
                && (step.Done? && write.Done? ==>
                      reply == Reply(200, PostBody(id, row))
                      && rows == old(rows)[id := row] && nextId == old(nextId)
                      && objects == (old(objects) + {name}) - Removed(existing.imageUrl))
    {
      if id !in rows {
        return Reply(404, ErrorBody("Post not found"));
      }
      var fields := UpdatedFields(rows[id], form);
      if !ValidImage(image) {
        reply := Rewrite(id, fields, write);
      } else {
        var name := UploadName(fields.postId, hex, image.value.filename);
        UploadNameIsOneSegment(fields.postId, hex, image.value.filename);
        reply := ReplaceImage(id, fields, name, upload, write);
      }
    }

    /** `update_post` without a new image: the row is written back with the image it had. */
    method Rewrite(id: int, row: Row, write: Step) returns (reply: Reply)
      requires Valid() && id in rows && row.imageUrl == rows[id].imageUrl
      modifies this`rows
      ensures Valid()
      ensures write.Failed? ==> reply == Reply(500, ErrorBody(write.message)) && rows == old(rows)
      ensures write.Done? ==> reply == Reply(200, PostBody(id, row)) && rows == old(rows)[id := row]
    {
      if write.Failed? {
        return Reply(500, ErrorBody(write.message));
      }
      ImagesKeptWhenImageKept(rows, objects, id, row);
      rows := rows[id := row];
      reply := Reply(200, PostBody(id, row));
    }

    /**
     * `update_post` with a new image, in the safe order: upload, write the
     * row, then remove the old image; a failed write removes the new image.
     */
    method ReplaceImage(id: int, fields: Row, name: string, upload: Step, write: Step)
      returns (reply: Reply)
      requires Valid() && id in rows && '/' !in name
      modifies this`rows, this`objects
      ensures Valid()
      ensures var step := UploadStep(name, upload, old(objects));
              var row := fields.(imageUrl := Some(bucketUrl + name));
              && (step.Failed? ==>
                    reply == Reply(500, ErrorBody("Image upload failed: " + step.message))
                    && rows == old(rows) && objects == old(objects))
              && (step.Done? && write.Failed? ==>
                    reply == Reply(500, ErrorBody(write.message)) && rows == old(rows) && objects == old(objects))
              && (step.Done? && write.Done? ==>
                    reply == Reply(200, PostBody(id, row)) && rows == old(rows)[id := row]
                    && objects == (old(objects) + {name}) - Removed(old(rows)[id].imageUrl))
    {
      ghost var before := objects;
      var step, url := StoreNewImage(name, upload);
      if step.Failed? {
        return Reply(500, ErrorBody("Image upload failed: " + step.message));
      }
      reply := Commit(id, fields.(imageUrl := url), write);
      if write.Failed? {
        assert objects == before;
      }
    }

    /**
     * The write of `update_post` for a row whose new image is stored and
     * referenced by no row: on success the old image is removed, on failure
     * the new one.
     */
    method Commit(id: int, row: Row, write: Step) returns (reply: Reply)
      requires Valid() && id in rows && Filled(row.imageUrl) && ImageObject(row.imageUrl) in objects
      requires !Referenced(rows, ImageObject(row.imageUrl))
      modifies this`rows, this`objects
      ensures Valid()
      ensures write.Failed? ==>
                && reply == Reply(500, ErrorBody(write.message)) && rows == old(rows)
                && objects == old(objects) - {ImageObject(row.imageUrl)}
      ensures write.Done? ==>
                && reply == Reply(200, PostBody(id, row)) && rows == old(rows)[id := row]
                && objects == old(objects) - Removed(old(rows)[id].imageUrl)
    {
      var existing := rows[id];
      if write.Failed? {
        ImagesKeptWhenObjectDropped(rows, objects, row.imageUrl);
        DeleteImage(row.imageUrl);
        return Reply(500, ErrorBody(write.message));
      }
      ImagesKeptWhenImageReplaced(rows, objects, id, row);
      rows := rows[id := row];
      // `delete_image_from_supabase` itself does nothing for a row without an image.
      DeleteImage(existing.imageUrl);
      reply := Reply(200, PostBody(id, row));
    }

    /**
     * `update_post` as written: with a valid new image, the old image is
     * removed before the new one is uploaded under the name built from
     * `post_id` as it is, and nothing is undone when the upload or the write
     * then fails. Without a valid image it behaves as `UpdatePost`.
     */
    method UpdatePostAsWritten(id: int, form: Form, image: Option<Upload>, hex: string, upload: Step, write: Step)
      returns (reply: Reply)
      requires IsBucketPrefix(bucketUrl) && IsHexToken(hex)
      modifies this
      ensures id !in old(rows) ==>
                reply == Reply(404, ErrorBody("Post not found")) && State() == old(State())
      ensures id in old(rows) && !ValidImage(image) ==>
                var row := UpdatedFields(old(rows)[id], form);
                && (write.Failed? ==>
                      reply == Reply(500, ErrorBody(write.message)) && State() == old(State()))
                && (write.Done? ==>
                      reply == Reply(200, PostBody(id, row))
                      && rows == old(rows)[id := row] && nextId == old(nextId) && objects == old(objects))
      ensures id in old(rows) && ValidImage(image) ==>
                var existing := old(rows)[id];
                var fields := UpdatedFields(existing, form);
                var name := UploadNameAsWritten(fields.postId, hex, image.value.filename);
                var kept := old(objects) - Removed(existing.imageUrl);
                var step := UploadStep(name, upload, kept);
                var row := fields.(imageUrl := Some(bucketUrl + name));
                && (step.Failed? ==>
                      reply == Reply(500, ErrorBody("Image upload failed: " + step.message))
                      && rows == old(rows) && nextId == old(nextId) && objects == kept)
                && (step.Done? && write.Failed? ==>
                      reply == Reply(500, ErrorBody(write.message))
                      && rows == old(rows) && nextId == old(nextId) && objects == kept + {name})
                && (step.Done? && write.Done? ==>
                      reply == Reply(200, PostBody(id, row))
                      && rows == old(rows)[id := row] && nextId == old(nextId) && objects == kept + {name})
    {
      if id !in rows {
        return Reply(404, ErrorBody("Post not found"));
      }
      var fields := UpdatedFields(rows[id], form);
      if !ValidImage(image) {
        if write.Failed? {
          return Reply(500, ErrorBody(write.message));
        }
        rows := rows[id := fields];
        return Reply(200, PostBody(id, fields));
      }
      var name := UploadNameAsWritten(fields.postId, hex, image.value.filename);
      reply := ReplaceImageAsWritten(id, fields, name, upload, write);
    }

    /**
     * The image branch of `update_post` as written: the old image is removed
     * first, then the new one is uploaded and the row written, and nothing is
     * undone when either fails.
     */
    method ReplaceImageAsWritten(id: int, fields: Row, name: string, upload: Step, write: Step)
      returns (reply: Reply)
      requires IsBucketPrefix(bucketUrl) && id in rows
      modifies this`rows, this`objects
      ensures var kept := old(objects) - Removed(old(rows)[id].imageUrl);
              var step := UploadStep(name, upload, kept);
              var row := fields.(imageUrl := Some(bucketUrl + name));
              && (step.Failed? ==>
                    reply == Reply(500, ErrorBody("Image upload failed: " + step.message))
                    && rows == old(rows) && objects == kept)
              && (step.Done? && write.Failed? ==>
                    reply == Reply(500, ErrorBody(write.message)) && rows == old(rows) && objects == kept + {name})
              && (step.Done? && write.Done? ==>
                    reply == Reply(200, PostBody(id, row)) && rows == old(rows)[id := row] && objects == kept + {name})
    {
      var existing := rows[id];
      if Filled(existing.imageUrl) {
        DeleteImage(existing.imageUrl);
      }
      assert objects == old(objects) - Removed(existing.imageUrl);
      var step, url := StoreImage(name, upload);
      if step.Failed? {
        return Reply(500, ErrorBody("Image upload failed: " + step.message));
      }
      var row := fields.(imageUrl := url);
      if write.Failed? {
        return Reply(500, ErrorBody(write.message));
      }
      rows := rows[id := row];
      reply := Reply(200, PostBody(id, row));
    }

    /**
     * `delete_post`: an unknown id is a 404; otherwise exactly that row is
     * removed, then its image.
     */
    method DeletePost(id: int, write: Step) returns (reply: Reply)
      requires Valid()
      modifies this
      ensures Valid()
      ensures id !in old(rows) ==>
                reply == Reply(404, ErrorBody("Post not found")) && State() == old(State())
      ensures id in old(rows) && write.Failed? ==>
                reply == Reply(500, ErrorBody(write.message)) && State() == old(State())
      ensures id in old(rows) && write.Done? ==>
                && reply == Reply(200, MessageBody("Post deleted successfully"))
                && rows == old(rows) - {id} && |rows| == |old(rows)| - 1
                && nextId == old(nextId)
                && objects == old(objects) - Removed(old(rows)[id].imageUrl)
      ensures forall k :: k in old(rows) && k != id ==> k in rows && rows[k] == old(rows)[k]
    {
      if id !in rows {
        return Reply(404, ErrorBody("Post not found"));
      }
      var existing := rows[id];
      if write.Failed? {
        return Reply(500, ErrorBody(write.message));
      }
      ImagesKeptWhenRowRemoved(rows, objects, id);
      rows := rows - {id};
      if Filled(existing.imageUrl) {
        DeleteImage(existing.imageUrl);
      }
      reply := Reply(200, MessageBody("Post deleted successfully"));
    }
  }

  /**
   * The counterexample to `update_post` as written: a post whose image is
   * stored gets a new allowed image whose upload fails. The answer is a 500,
   * the row still refers to its old image, and that image is gone.
   */
  method FailedUploadLeavesDanglingImage(t: PostsTable, id: int, image: Upload, hex: string, message: string)
    returns (reply: Reply, referenced: bool, stored: bool)
    requires t.Valid() && id in t.rows && Filled(t.rows[id].imageUrl)
    requires ValidImage(Some(image)) && IsHexToken(hex)
    modifies t
    ensures reply.status == 500 && referenced && !stored
  {
    reply := t.UpdatePostAsWritten(id, map[], Some(image), hex, Failed(message), Done);
    referenced := Filled(t.rows[id].imageUrl);
    stored := referenced && ImageObject(t.rows[id].imageUrl) in t.objects;
  }

  /**
   * Retrying the same update after the failed upload above: the row still
   * refers to the removed image, so the table is no longer `Valid`, yet the
   * code accepts the request, and a successful upload under a free name
   * points the row at a stored image again.
   */
  method RetryAfterFailedUpload(t: PostsTable, id: int, image: Upload, hex: string, message: string)
    returns (first: Reply, dangling: bool, second: Reply, stored: bool)
    requires t.Valid() && id in t.rows && Filled(t.rows[id].imageUrl)
    requires ValidImage(Some(image)) && IsHexToken(hex)
    requires UploadNameAsWritten(t.rows[id].postId, hex, image.filename) !in t.objects
    modifies t
    ensures first.status == 500 && dangling
    ensures second.status == 200 && stored
  {
    var name := UploadNameAsWritten(t.rows[id].postId, hex, image.filename);
    first := t.UpdatePostAsWritten(id, map[], Some(image), hex, Failed(message), Done);
    dangling := Filled(t.rows[id].imageUrl) && ImageObject(t.rows[id].imageUrl) !in t.objects;
    second := t.UpdatePostAsWritten(id, map[], Some(image), hex, Done, Done);
    stored := t.rows[id].imageUrl == Some(t.bucketUrl + name) && name in t.objects;
  }

  /** The same request against the corrected `UpdatePost` keeps the old image stored. */
  method FailedUploadKeepsImage(t: PostsTable, id: int, image: Upload, hex: string, message: string)
    returns (reply: Reply, referenced: bool, stored: bool)
    requires t.Valid() && id in t.rows && Filled(t.rows[id].imageUrl)
    requires ValidImage(Some(image)) && IsHexToken(hex)
    modifies t
    ensures reply.status == 500 && referenced && stored
  {
    reply := t.UpdatePost(id, map[], Some(image), hex, Failed(message), Done);
    referenced := Filled(t.rows[id].imageUrl);
    stored := referenced && ImageObject(t.rows[id].imageUrl) in t.objects;
  }
}
