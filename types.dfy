/** The GitHub API records the analysis engine consumes. */
module Types {
  /** A `GitHubTreeItem`: a path and GitHub's entry type (`"blob"`, `"tree"`, ...). */
  datatype TreeItem = TreeItem(path: string, kind: string)
}
