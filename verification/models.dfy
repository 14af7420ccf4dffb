/** The record shapes the remote API returns. They carry no behaviour. */
module Models {
  import opened Wrappers

  /** Rust's `u32`. */
  type U32 = x: int | 0 <= x < 0x1_0000_0000

  datatype Repo = Repo(
    fullName: string,
    description: Option<string>,
    stargazersCount: U32,
    forksCount: U32,
    language: Option<string>,
    openIssuesCount: U32,
    updatedAt: string,
    createdAt: string,
    htmlUrl: string)

  datatype Label = Label(
    url: string,
    description: Option<string>,
    color: Option<string>,
    name: string)

  datatype Issue = Issue(
    title: string,
    state: string,
    body: Option<string>,
    number: U32,
    htmlUrl: string,
    labels: seq<Label>)

  datatype PR = PR(
    number: U32,
    state: string,
    body: Option<string>,
    title: string,
    htmlUrl: string)
}
