/** The shared page parts that hold logic: the git-version card's fields,
    parsed from the lines `git show` prints, and the breadcrumb trail. The
    shell call itself is not modelled; the parser receives its output,
    already split into lines. */
module Common {
  import opened Strings

  // ---------------------------------------------------------------------
  // component_git_version
  // ---------------------------------------------------------------------

  const GithubHomeUrl: string := "https://github.com/sjtrny/forecast_dash/"

  /** The fields the version card shows. */
  datatype GitVersion = GitVersion(
    hash: string, shortHash: string, time: string, author: string,
    subject: string, patchUrl: string)

  /** The card's fields from the output lines of
      `git show --format="%H%n%h%n%ai%n%an%n%s"`: with at least five lines
      the first four are the hash, short hash, time and author and the rest
      form the subject; with fewer every field keeps its default. */
  function ComponentGitVersion(gitOutput: seq<string>): (v: GitVersion)
    ensures |gitOutput| < 5 ==>
              && v.hash == "" && v.shortHash == "Unknown commit" && v.time == "00:00"
              && v.author == "Unknown author" && v.subject == ""
              && v.patchUrl == GithubHomeUrl + "commit/"
    ensures |gitOutput| >= 5 ==>
              && v.hash == gitOutput[0] && v.shortHash == gitOutput[1]
              && v.time == gitOutput[2] && v.author == gitOutput[3]
    ensures v.patchUrl == GithubHomeUrl + "commit/" + v.hash
  {
    var hash, shortHash, time, author, subject :=
      if |gitOutput| >= 5 then gitOutput[0] else "",
      if |gitOutput| >= 5 then gitOutput[1] else "Unknown commit",
      if |gitOutput| >= 5 then gitOutput[2] else "00:00",
      if |gitOutput| >= 5 then gitOutput[3] else "Unknown author",
      if |gitOutput| >= 5 then Join(gitOutput[4..], "\n") else "";
    GitVersion(hash, shortHash, time, author, subject, GithubHomeUrl + "commit/" + hash)
  }

  /** A subject that ran over several lines is kept whole: splitting it at
      its newlines gives back every output line from the fifth on, so the
      four leading fields and the subject's lines rebuild the output. */
  lemma SubjectKeptWhole(gitOutput: seq<string>)
    requires |gitOutput| >= 5
    requires forall i :: 0 <= i < |gitOutput| ==> '\n' !in gitOutput[i]
    ensures Split(ComponentGitVersion(gitOutput).subject, '\n') == gitOutput[4..]
    ensures var v := ComponentGitVersion(gitOutput);
            [v.hash, v.shortHash, v.time, v.author] + Split(v.subject, '\n') == gitOutput
  {
    var rest := gitOutput[4..];
    assert forall i :: 0 <= i < |rest| ==> '\n' !in rest[i] by {
      forall i | 0 <= i < |rest| ensures '\n' !in rest[i] {
        assert rest[i] == gitOutput[4 + i];
      }
    }
    SplitJoin(rest, '\n');
    assert gitOutput == gitOutput[..4] + rest;
  }

  // ---------------------------------------------------------------------
  // breadcrumb_layout
  // ---------------------------------------------------------------------

  /** A crumb: its title and the address it links to. */
  datatype Crumb = Crumb(title: string, href: string)

  /** A list item of the trail: a link, or the final active item, which
      shows only its title. */
  datatype CrumbItem = LinkItem(title: string, href: string) | ActiveItem(title: string)

  function ClassName(item: CrumbItem): string {
    match item
    case LinkItem(_, _) => "breadcrumb-item"
    case ActiveItem(_) => "breadcrumb-item active"
  }

  /** The trail's items: every crumb but the last becomes a link, the last
      the one active item. The source takes the last crumb unguarded, so a
      trail needs at least one crumb. */
  function BreadcrumbLayout(crumbs: seq<Crumb>): (items: seq<CrumbItem>)
    requires |crumbs| > 0
    ensures |items| == |crumbs|
    ensures forall i :: 0 <= i < |items| ==> (items[i].ActiveItem? <==> i == |items| - 1)
    ensures forall i :: 0 <= i < |items| ==> items[i].title == crumbs[i].title
    ensures forall i :: 0 <= i < |items| - 1 ==> items[i] == LinkItem(crumbs[i].title, crumbs[i].href)
  {
    var n := |crumbs| - 1;
    seq(n, i requires 0 <= i < n => LinkItem(crumbs[i].title, crumbs[i].href))
      + [ActiveItem(crumbs[n].title)]
  }

  /** Exactly one item of a trail is marked active. */
  lemma OneActiveItem(crumbs: seq<Crumb>)
    requires |crumbs| > 0
    ensures |set i | 0 <= i < |crumbs| && ClassName(BreadcrumbLayout(crumbs)[i]) == "breadcrumb-item active"| == 1
  {
    var items := BreadcrumbLayout(crumbs);
    var active := set i | 0 <= i < |crumbs| && ClassName(items[i]) == "breadcrumb-item active";
    assert forall i :: i in active <==> i == |crumbs| - 1 by {
      forall i | 0 <= i < |crumbs| ensures ClassName(items[i]) == "breadcrumb-item active" <==> i == |crumbs| - 1 {
        if i < |crumbs| - 1 {
          assert ClassName(items[i]) == "breadcrumb-item";
          assert "breadcrumb-item" != "breadcrumb-item active";
        }
      }
    }
    assert active == {|crumbs| - 1};
  }
}
