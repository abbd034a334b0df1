/**
 * A download task as the task generator writes it and the batch
 * downloader reads it back.
 */
module Tasks {

  /** The `metadata` object of a task. */
  datatype Metadata = Metadata(
    stage: string,
    subject: string,
    version: string,
    grade: string,
    semester: string,
    publisher: string,
    group: string)

  /**
   * One download task. `sizeBytes` is the optional `size_bytes` field,
   * 0 when it is absent.
   */
  datatype Task = Task(
    id: string,
    contentId: string,
    contentType: string,
    originalTitle: string,
    fileName: string,
    savePath: string,
    pageUrl: string,
    apiUrl: string,
    catalogPath: string,
    metadata: Metadata,
    sizeBytes: int)
}
