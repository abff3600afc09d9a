/** ECS resource names of `receiver/modules/compose/ecs/utils/name.go`. */
module EcsNames {
  import opened GoStrings

  const ServiceNamePrefix: string := "paus"
  const TaskDefinitionNamePrefix: string := "paus"

  /** `GetTaskDefinitionName`: the project name behind the `paus-` prefix. */
  function TaskDefinitionName(projectName: string): (r: string)
    ensures HasPrefix(r, "paus-")
    ensures r[5..] == projectName
  {
    TaskDefinitionNamePrefix + "-" + projectName
  }

  /** `GetServiceName`: the task-definition name of the same project, a `-`,
      and the suffix. */
  function ServiceName(projectName: string, suffix: string): (r: string)
    ensures HasPrefix(r, "paus-")
    ensures r == TaskDefinitionName(projectName) + "-" + suffix
  {
    ServiceNamePrefix + "-" + projectName + "-" + suffix
  }

  /** Different projects get different task-definition names. */
  lemma TaskDefinitionNameInjective(p: string, q: string)
    requires TaskDefinitionName(p) == TaskDefinitionName(q)
    ensures p == q
  {
    assert p == TaskDefinitionName(p)[5..];
  }

  /** Within a project, different suffixes give different service names. */
  lemma ServiceNameSuffixInjective(p: string, a: string, b: string)
    requires ServiceName(p, a) == ServiceName(p, b)
    ensures a == b
  {
    var n := |TaskDefinitionName(p)| + 1;
    assert a == ServiceName(p, a)[n..];
    assert b == ServiceName(p, b)[n..];
  }
}
