/** The upload middleware's decisions: which files are accepted and where and under which name
    an accepted file is stored. */
module Upload {
  import opened Wrappers

  const AllowedTypes: seq<string> := ["image/jpeg", "image/png", "image/gif", "image/webp"]
  const RejectMessage: string := "只允许上传图片文件 (JPEG, PNG, GIF, WebP)"

  /** The arguments `imageFilter` hands to its callback: an error, and whether to accept. */
  datatype FilterDecision = FilterDecision(error: Option<string>, accept: bool)

  /** `imageFilter(req, file, cb)` */
  function ImageFilter(mimetype: string): (d: FilterDecision)
    ensures d.accept <==> mimetype == "image/jpeg" || mimetype == "image/png"
                          || mimetype == "image/gif" || mimetype == "image/webp"
    ensures d.accept ==> d.error == None
    ensures !d.accept ==> d.error == Some(RejectMessage)
  {
    if mimetype in AllowedTypes then FilterDecision(None, true)
    else FilterDecision(Some(RejectMessage), false)
  }

  /** `path.extname(name)`; not modelled inside. */
  type ExtName = string -> string

  /** The `filename` callback: a fresh uuid followed by the original name's extension. */
  function StoredName(uuid: string, originalName: string, extname: ExtName): (r: string)
    ensures |r| == |uuid| + |extname(originalName)|
    ensures r[..|uuid|] == uuid && r[|uuid|..] == extname(originalName)
  {
    uuid + extname(originalName)
  }

  /** Files stored under different uuids of one length get different names, whatever their
      original names. */
  lemma DistinctUuidsGiveDistinctNames(u1: string, u2: string, n1: string, n2: string, extname: ExtName)
    requires |u1| == |u2| && u1 != u2
    ensures StoredName(u1, n1, extname) != StoredName(u2, n2, extname)
  {
    assert StoredName(u1, n1, extname)[..|u1|] == u1;
  }

  /** The `destination` callback: the configured upload directory, whatever the file. */
  function Destination(uploadDir: string, originalName: string, mimetype: string): (r: string)
    ensures r == uploadDir
  {
    uploadDir
  }
}
