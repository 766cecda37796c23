/** Values shared by every part of the retrieval-and-grounding pipeline. */
module Common {

  datatype Option<+T> = None | Some(value: T)

  /** A distance reported by the vector store (smaller means more similar),
      or None when a candidate comes without one. Scores are only ever
      compared, so a real number stands for Python's float. */
  type Score = Option<real>

  /** A metadata value: the ingestion code stores file names and ids as
      text and chunk numbers as integers. */
  datatype MetaValue = Text(text: string) | Int(number: int)

  /** A LangChain document: its text and its metadata dictionary. */
  datatype Document = Document(pageContent: string, metadata: map<string, MetaValue>)

  /** The `doc.page_content` attribute of a document. */
  function PageContent(d: Document): string
  {
    d.pageContent
  }
}
