/** What a name in a `node_modules` directory can stand for. */
module DirectoryEntries {
  datatype FsEntry = Link(target: string) | Directory | File
}
