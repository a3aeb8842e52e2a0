TestResult.DisplayName,TestResult.Outcome,TestResult.Duration,TestResult.ResourceCount,RandomSeed
ContainerProperties.ResolveAllStep (correctness),Passed,00:00:00.6380756,1023754,2
ContainerProperties.ResolveAllStep (well-formedness),Passed,00:00:00.2909906,222010,2
