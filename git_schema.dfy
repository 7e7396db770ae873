/** The source-control coordinates of an instance (gestor/schemas/git.py). */
module GitSchema {

  /**
   * `GitInfo`: a pydantic model whose four fields are all required and
   * non-null; `pull_request` is an integer, the others are strings.
   */
  datatype GitInfo = GitInfo(commit: string, repository: string, pullRequest: int, branch: string)
}
