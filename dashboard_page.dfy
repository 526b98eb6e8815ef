/** The dashboard page: the header, then one dashboard chosen by the session user's role. */
module DashboardPage {
  import opened Types

  datatype Component = Header | AdminDashboardPanel | StudentDashboardPanel

  /** The components the page renders, top to bottom. */
  function Page(user: Option<User>): (page: seq<Component>)
    ensures |page| == 2 && page[0] == Header
    ensures page[1] == AdminDashboardPanel <==> user.Some? && user.value.role == AdminRole
    ensures page[1] == StudentDashboardPanel <==> user.None? || user.value.role != AdminRole
  {
    [Header, if user.Some? && user.value.role == AdminRole then AdminDashboardPanel else StudentDashboardPanel]
  }

  /** Exactly one dashboard is rendered, whoever is signed in. */
  lemma ExactlyOneDashboard(user: Option<User>)
    ensures |set i | 0 <= i < |Page(user)| && Page(user)[i] != Header| == 1
  {
    var page := Page(user);
    assert (set i | 0 <= i < |page| && page[i] != Header) == {1};
  }
}
