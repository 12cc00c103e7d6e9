/** Classification of an uploaded file's mimetype into the stored
    `mediaType` tag (server.js:172). The source checks the bare prefixes
    "image" and "video", without a trailing slash. */
module Media {
  import opened Models
  import opened Seqs

  /** The tag is `image` exactly when the mimetype begins with "image";
      otherwise `video` exactly when it begins with "video"; otherwise
      `file`. Its stored name is always one of the three. */
  function ClassifyMedia(mimetype: string): (t: MediaType)
    ensures t == Image <==> "image" <= mimetype
    ensures t == Video <==> !("image" <= mimetype) && "video" <= mimetype
    ensures t == File <==> !("image" <= mimetype) && !("video" <= mimetype)
    ensures t.Name() in ["image", "video", "file"]
  {
    StartsWithIsPrefix(mimetype, "image");
    StartsWithIsPrefix(mimetype, "video");
    if StartsWith(mimetype, "image") then Image
    else if StartsWith(mimetype, "video") then Video
    else File
  }

  /** The two prefixes differ in their first character, so the order of the
      checks does not matter: `video` holds exactly when the mimetype begins
      with "video". */
  lemma ClassifyVideoIffPrefix(mimetype: string)
    ensures ClassifyMedia(mimetype) == Video <==> "video" <= mimetype
  {
    if "video" <= mimetype {
      assert mimetype[0] == 'v';
    }
  }

  /** Representative mimetypes, including one without the slash that the
      bare prefix check still accepts. */
  lemma ClassifyMediaExamples()
    ensures ClassifyMedia("image/png") == Image
    ensures ClassifyMedia("imagery") == Image
    ensures ClassifyMedia("video/mp4") == Video
    ensures ClassifyMedia("application/pdf") == File
    ensures ClassifyMedia("") == File
    ensures ClassifyMedia("Image/PNG") == File
  {
    ClassifyVideoIffPrefix("application/pdf");
    ClassifyVideoIffPrefix("Image/PNG");
  }
}
