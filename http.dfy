/** The JSON responses the route handlers return, with their status codes. */
module Http {
  import Store

  datatype Body =
    | ErrorJson(message: string)
    | ChapterJson(chapter: Store.Chapter)
    | NovelJson(novel: Store.NovelWithChapters)
    | NovelListJson(novels: seq<Store.NovelWithChapters>)

  datatype Response = Response(status: int, body: Body)

  /** No caller identity. */
  const Unauthorized: Response := Response(401, ErrorJson("未授权"))

  /** No user record for the caller's identity. */
  const UserNotFound: Response := Response(404, ErrorJson("用户不存在"))

  /** Anything the handler's `catch` turns into a generic failure. */
  const ServerError: Response := Response(500, ErrorJson("服务器错误"))
}
